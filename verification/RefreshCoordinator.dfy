/**
 The GUI's refresh coordinator: which component is polled when, and the guard that
 keeps at most one request per component in flight. Times are milliseconds of a
 monotone clock.
 */
module RefreshCoordinator {
  import opened Wrappers
  import opened Common

  // ----- requests in flight -----

  datatype InFlight = InFlight(active: map<string, nat>, skipped: nat)

  function Begin(s: InFlight, id: string): (InFlight, bool) {
    if id in s.active && s.active[id] > 0 then (s.(skipped := s.skipped + 1), false)
    else (s.(active := s.active[id := 1]), true)
  }

  function Finish(s: InFlight, id: string): InFlight {
    if id in s.active then s.(active := s.active[id := 0]) else s
  }

  class InFlightSet {
    var active: map<string, nat>
    var skipped: nat

    function View(): InFlight
      reads this
    {
      InFlight(active, skipped)
    }

    constructor ()
      ensures View() == InFlight(map[], 0)
    {
      active, skipped := map[], 0;
    }

    /** Claim a component; a refused claim is a skipped tick. */
    method TryBegin(id: string) returns (granted: bool)
      modifies this
      ensures (View(), granted) == Begin(old(View()), id)
    {
      if id !in active {
        active := active[id := 0];
      }
      if active[id] > 0 {
        skipped := skipped + 1;
        return false;
      }
      active := active[id := 1];
      assert active == old(active)[id := 1];
      return true;
    }

    /** The drop of a permit. */
    method DropPermit(id: string)
      modifies this
      ensures View() == Finish(old(View()), id)
    {
      if id in active {
        active := active[id := 0];
      }
    }
  }

  /** A claim attempt, or the end of a fetch that holds a permit. */
  datatype Event = Attempt(id: string) | Drop(id: string)

  /** The set together with the permits alive and the numbers of attempts and grants. */
  datatype Flight = Flight(set_: InFlight, permits: multiset<string>, attempts: nat, granted: nat)

  const NO_FLIGHT := Flight(InFlight(map[], 0), multiset{}, 0, 0)

  /** A permit is dropped by its owner, once. */
  predicate Possible(f: Flight, e: Event) {
    e.Drop? ==> e.id in f.permits
  }

  function Fly(f: Flight, e: Event): Flight
    requires Possible(f, e)
  {
    match e
    case Attempt(id) =>
      var (t, ok) := Begin(f.set_, id);
      if ok then Flight(t, f.permits + multiset{id}, f.attempts + 1, f.granted + 1)
      else Flight(t, f.permits, f.attempts + 1, f.granted)
    case Drop(id) => f.(set_ := Finish(f.set_, id), permits := f.permits - multiset{id})
  }

  predicate PossibleRun(events: seq<Event>)
    decreases |events|, 0
  {
    events == [] ||
    var n := |events| - 1;
    PossibleRun(events[..n]) && Possible(FlyAll(events[..n]), events[n])
  }

  function FlyAll(events: seq<Event>): Flight
    requires PossibleRun(events)
    decreases |events|, 1
  {
    if events == [] then NO_FLIGHT else Fly(FlyAll(events[..|events| - 1]), events[|events| - 1])
  }

  predicate Marked(s: InFlight, id: string) {
    id in s.active && s.active[id] > 0
  }

  /** A component has at most one live permit, and has one exactly while it is marked. */
  ghost predicate PermitsMatchMarks(f: Flight) {
    forall id :: f.permits[id] == if Marked(f.set_, id) then 1 else 0
  }

  lemma FlyKeepsMatch(f: Flight, e: Event)
    requires Possible(f, e) && PermitsMatchMarks(f)
    ensures PermitsMatchMarks(Fly(f, e))
  {
    var g := Fly(f, e);
    forall id: string
      ensures g.permits[id] == if Marked(g.set_, id) then 1 else 0
    {
      assert f.permits[id] == if Marked(f.set_, id) then 1 else 0;
      assert f.permits[e.id] == if Marked(f.set_, e.id) then 1 else 0;
      assert Marked(g.set_, id) <==> if id == e.id then e.Attempt? else Marked(f.set_, id);
    }
  }

  /**
   However attempts and completions interleave, a component has at most one live
   permit, it has one exactly while it is marked active, and every attempt is
   either granted or counted as skipped.
   */
  lemma {:induction false} OnePermitPerComponent(events: seq<Event>)
    requires PossibleRun(events)
    ensures PermitsMatchMarks(FlyAll(events))
    ensures FlyAll(events).granted + FlyAll(events).set_.skipped == FlyAll(events).attempts
  {
    if events != [] {
      OnePermitPerComponent(events[..|events| - 1]);
      FlyKeepsMatch(FlyAll(events[..|events| - 1]), events[|events| - 1]);
    }
  }

  /** A claim is granted exactly when the component has no live permit. */
  lemma GrantedIffFree(events: seq<Event>, id: string)
    requires PossibleRun(events)
    ensures Begin(FlyAll(events).set_, id).1 <==> FlyAll(events).permits[id] == 0
  {
    OnePermitPerComponent(events);
  }

  // ----- refresh timing -----

  const PAUSED_SLEEP := 3_600_000
  const EMPTY_SLEEP := 100

  datatype Component = Component(interval: nat, lastRefresh: Option<int>, paused: bool)

  predicate ShouldRefresh(c: Component, now: int) {
    !c.paused && (c.lastRefresh.None? || Elapsed(c.lastRefresh.value, now) >= c.interval)
  }

  function TimeUntilRefresh(c: Component, now: int): nat {
    if c.paused then PAUSED_SLEEP
    else if c.lastRefresh.None? then 0
    else
      var elapsed := Elapsed(c.lastRefresh.value, now);
      if elapsed >= c.interval then 0 else c.interval - elapsed
  }

  /** The reported wait is exact: a component that is not paused is due after it and not a moment before. */
  lemma WaitIsExact(c: Component, now: int, wait: nat)
    requires !c.paused && (c.lastRefresh.Some? ==> c.lastRefresh.value <= now)
    ensures ShouldRefresh(c, now + wait) <==> wait >= TimeUntilRefresh(c, now)
  {}

  /** A paused component is never due, and asks to be left alone for an hour. */
  lemma PausedIsNeverDue(c: Component, now: int)
    requires c.paused
    ensures !ShouldRefresh(c, now) && TimeUntilRefresh(c, now) == 3_600_000
  {}

  type Components = map<string, Component>

  /** One component's turn in a tick: the clock when it is checked and when it is marked, after its callback. */
  datatype Command =
    | Register(id: string, interval: nat)
    | UpdateInterval(id: string, interval: nat)
    | SetPollSet(ids: seq<string>)
    | ClearPollSet
    | Visit(id: string, checked: int, marked: int)

  function Execute(cs: Components, c: Command): Components {
    match c
    case Register(id, interval) => cs[id := Component(interval, None, false)]
    case UpdateInterval(id, interval) => if id in cs then cs[id := cs[id].(interval := interval)] else cs
    case SetPollSet(ids) => map id | id in cs :: cs[id].(paused := id !in ids)
    case ClearPollSet => map id | id in cs :: cs[id].(paused := false)
    case Visit(id, checked, marked) =>
      if id in cs && ShouldRefresh(cs[id], checked) then cs[id := cs[id].(lastRefresh := Some(marked))] else cs
  }

  /** Does this command call the component's callback? */
  predicate Fires(cs: Components, c: Command) {
    c.Visit? && c.id in cs && ShouldRefresh(cs[c.id], c.checked)
  }

  /** The clock at a component's turn: when it is checked and, after its callback, when it is marked. */
  datatype Turn = Turn(checked: int, marked: int)

  function Turned(c: Component, turn: Turn): Component {
    if ShouldRefresh(c, turn.checked) then c.(lastRefresh := Some(turn.marked)) else c
  }

  /** Is this component due when its turn comes? */
  predicate DueAt(cs: Components, clock: map<string, Turn>, id: string)
    requires cs.Keys <= clock.Keys
  {
    id in cs && ShouldRefresh(cs[id], clock[id].checked)
  }

  function Ticked(cs: Components, clock: map<string, Turn>): Components
    requires cs.Keys <= clock.Keys
  {
    map id | id in cs :: Turned(cs[id], clock[id])
  }

  class Coordinator {
    var components: Components

    constructor ()
      ensures components == map[]
    {
      components := map[];
    }

    method RegisterComponent(id: string, interval: nat)
      modifies this
      ensures components == Execute(old(components), Register(id, interval))
    {
      components := components[id := Component(interval, None, false)];
    }

    method ChangeInterval(id: string, interval: nat)
      modifies this
      ensures components == Execute(old(components), UpdateInterval(id, interval))
    {
      if id in components {
        components := components[id := components[id].(interval := interval)];
      }
    }

    /** Poll exactly these; pause the others. The order of the visits does not matter. */
    method ChangePollSet(ids: seq<string>)
      modifies this
      ensures components == Execute(old(components), SetPollSet(ids))
    {
      var todo := components.Keys;
      while todo != {}
        invariant todo <= components.Keys == old(components).Keys
        invariant forall id :: id in components ==>
                    components[id] == if id in todo then old(components)[id]
                                      else old(components)[id].(paused := id !in ids)
        decreases todo
      {
        var id :| id in todo;
        var component := components[id];
        if id !in ids && !component.paused {
          components := components[id := component.(paused := true)];
        } else if id in ids && component.paused {
          components := components[id := component.(paused := false)];
        }
        todo := todo - {id};
      }
    }

    method ResumeAll()
      modifies this
      ensures components == Execute(old(components), ClearPollSet)
    {
      var todo := components.Keys;
      while todo != {}
        invariant todo <= components.Keys == old(components).Keys
        invariant forall id :: id in components ==>
                    components[id] == if id in todo then old(components)[id] else old(components)[id].(paused := false)
        decreases todo
      {
        var id :| id in todo;
        if components[id].paused {
          components := components[id := components[id].(paused := false)];
        }
        todo := todo - {id};
      }
    }

    method VisitComponent(id: string, checked: int, marked: int) returns (fired: bool)
      requires id in components
      modifies this
      ensures components == Execute(old(components), Visit(id, checked, marked))
      ensures fired == Fires(old(components), Visit(id, checked, marked))
    {
      fired := ShouldRefresh(components[id], checked);
      if fired {
        components := components[id := components[id].(lastRefresh := Some(marked))];
      }
    }

    /**
     The timer branch: every component that is due when its turn comes is called
     once and marked, the others are left alone, in whatever order the map yields.
     */
    method Tick(clock: map<string, Turn>) returns (called: seq<string>)
      requires components.Keys <= clock.Keys
      modifies this
      ensures components == Ticked(old(components), clock)
      ensures forall id :: multiset(called)[id] == if DueAt(old(components), clock, id) then 1 else 0
    {
      called := [];
      var todo := components.Keys;
      while todo != {}
        invariant todo <= components.Keys == old(components).Keys
        invariant forall id :: id in components ==>
                    components[id] == if id in todo then old(components)[id] else Turned(old(components)[id], clock[id])
        invariant forall id :: multiset(called)[id] ==
                    if id !in todo && DueAt(old(components), clock, id) then 1 else 0
        decreases todo
      {
        var id :| id in todo;
        var fired := VisitComponent(id, clock[id].checked, clock[id].marked);
        if fired {
          called := called + [id];
        }
        todo := todo - {id};
      }
    }

    /** How long the loop may sleep: no component that is polled becomes due before that. */
    method SleepDuration(now: int) returns (sleep: nat)
      ensures components == map[] ==> sleep == EMPTY_SLEEP
      ensures components != map[] ==> exists id :: id in components && sleep == TimeUntilRefresh(components[id], now)
      ensures forall id :: id in components ==> sleep <= TimeUntilRefresh(components[id], now) || components == map[]
    {
      if components == map[] {
        return EMPTY_SLEEP;
      }
      var first :| first in components.Keys;
      sleep := TimeUntilRefresh(components[first], now);
      var todo := components.Keys - {first};
      while todo != {}
        invariant todo <= components.Keys
        invariant exists id :: id in components && sleep == TimeUntilRefresh(components[id], now)
        invariant forall id :: id in components && id !in todo ==> sleep <= TimeUntilRefresh(components[id], now)
        decreases todo
      {
        var id :| id in todo;
        var wait := TimeUntilRefresh(components[id], now);
        if wait < sleep {
          sleep := wait;
        }
        todo := todo - {id};
      }
    }
  }

  // ----- what a history of commands means -----

  function After(history: seq<Command>): Components {
    if history == [] then map[] else Execute(After(history[..|history| - 1]), history[|history| - 1])
  }

  /** The visits of a tick, in the given order. */
  function VisitAll(cs: Components, order: seq<string>, clock: map<string, Turn>): Components
    requires forall id <- order :: id in clock
  {
    if order == [] then cs else
    var id := order[|order| - 1];
    Execute(VisitAll(cs, order[..|order| - 1], clock), Visit(id, clock[id].checked, clock[id].marked))
  }

  function PartlyTicked(cs: Components, order: seq<string>, clock: map<string, Turn>): Components
    requires cs.Keys <= clock.Keys
  {
    map id | id in cs :: if id in order then Turned(cs[id], clock[id]) else cs[id]
  }

  lemma PartlyTickedOneMore(cs: Components, order: seq<string>, id: string, clock: map<string, Turn>)
    requires cs.Keys <= clock.Keys && id in cs && id !in order
    ensures PartlyTicked(cs, order + [id], clock)
         == Execute(PartlyTicked(cs, order, clock), Visit(id, clock[id].checked, clock[id].marked))
  {
    assert PartlyTicked(cs, order, clock)[id] == cs[id];
    var visited := Execute(PartlyTicked(cs, order, clock), Visit(id, clock[id].checked, clock[id].marked));
    assert visited.Keys == cs.Keys;
    forall other | other in cs
      ensures visited[other] == if other in order + [id] then Turned(cs[other], clock[other]) else cs[other]
    {}
  }

  /** A tick is the visits of the components, each once, and their order does not matter. */
  lemma {:induction false} TickIsItsVisits(cs: Components, order: seq<string>, clock: map<string, Turn>)
    requires cs.Keys <= clock.Keys
    requires forall id <- order :: id in cs
    requires forall i, j :: 0 <= i < j < |order| ==> order[i] != order[j]
    ensures VisitAll(cs, order, clock) == PartlyTicked(cs, order, clock)
    ensures (forall id <- cs.Keys :: id in order) ==> VisitAll(cs, order, clock) == Ticked(cs, clock)
  {
    if order != [] {
      var shorter, last := order[..|order| - 1], order[|order| - 1];
      assert order == shorter + [last];
      TickIsItsVisits(cs, shorter, clock);
      PartlyTickedOneMore(cs, shorter, last, clock);
    }
  }

  predicate IsRegistered(history: seq<Command>, id: string) {
    exists k :: 0 <= k < |history| && history[k].Register? && history[k].id == id
  }

  /** Left out by the latest poll set since the component was registered; a cleared poll set leaves nothing out. */
  predicate Excluded(history: seq<Command>, id: string) {
    history != [] &&
    match history[|history| - 1]
    case SetPollSet(ids) => id !in ids
    case ClearPollSet => false
    case Register(other, _) => other != id && Excluded(history[..|history| - 1], id)
    case _ => Excluded(history[..|history| - 1], id)
  }

  /** The interval given last, at registration or later. */
  function CurrentInterval(history: seq<Command>, id: string): nat {
    if history == [] then 0 else
    var before := CurrentInterval(history[..|history| - 1], id);
    match history[|history| - 1]
    case Register(other, interval) => if other == id then interval else before
    case UpdateInterval(other, interval) => if other == id then interval else before
    case _ => before
  }

  predicate FiresAt(history: seq<Command>, k: nat)
    requires k < |history|
  {
    Fires(After(history[..k]), history[k])
  }

  lemma {:induction false} RegistrationExtends(history: seq<Command>, id: string)
    requires history != []
    ensures var last := history[|history| - 1];
            IsRegistered(history, id) <==>
              (last.Register? && last.id == id) || IsRegistered(history[..|history| - 1], id)
  {
    var before := history[..|history| - 1];
    assert history == before + [history[|history| - 1]];
    if k :| 0 <= k < |before| && before[k].Register? && before[k].id == id {
      assert history[k] == before[k];
    }
    if k :| 0 <= k < |history| && history[k].Register? && history[k].id == id {
      assert k < |before| ==> before[k] == history[k];
    }
  }

  /** For any commands: a component exists once registered, is paused iff excluded, and has its latest interval. */
  lemma {:induction false} StateFollowsHistory(history: seq<Command>, id: string)
    ensures id in After(history) <==> IsRegistered(history, id)
    ensures id in After(history) ==>
              && After(history)[id].paused == Excluded(history, id)
              && After(history)[id].interval == CurrentInterval(history, id)
  {
    if history != [] {
      StateFollowsHistory(history[..|history| - 1], id);
      RegistrationExtends(history, id);
    }
  }

  predicate MonotoneClock(history: seq<Command>) {
    && (forall k :: 0 <= k < |history| && history[k].Visit? ==> history[k].checked <= history[k].marked)
    && (forall j, k :: 0 <= j < k < |history| && history[j].Visit? && history[k].Visit? ==>
          history[j].marked <= history[k].checked)
  }

  predicate RegisteredBetween(history: seq<Command>, id: string, i: int, k: int)
    requires k <= |history|
  {
    exists m :: 0 <= m && i < m < k && history[m].Register? && history[m].id == id
  }

  lemma AfterOneMore(history: seq<Command>, k: nat)
    requires k < |history|
    ensures After(history[..k + 1]) == Execute(After(history[..k]), history[k])
  {
    assert history[..k + 1][..k] == history[..k];
  }

  lemma {:induction false} LastRefreshIsRecent(history: seq<Command>, i: nat, k: nat)
    requires MonotoneClock(history) && i < k <= |history| && FiresAt(history, i)
    requires !RegisteredBetween(history, history[i].id, i, k)
    ensures var cs, id := After(history[..k]), history[i].id;
            id in cs && cs[id].lastRefresh.Some? && history[i].marked <= cs[id].lastRefresh.value
    decreases k
  {
    var m := k - 1;
    AfterOneMore(history, m);
    if m > i {
      assert !RegisteredBetween(history, history[i].id, i, m) by {
        if j :| 0 <= j && i < j < m && history[j].Register? && history[j].id == history[i].id {
          assert RegisteredBetween(history, history[i].id, i, k);
        }
      }
      LastRefreshIsRecent(history, i, m);
      assert !(history[m].Register? && history[m].id == history[i].id);
    }
  }

  /**
   Callbacks respect the interval in force: between registrations, two callbacks of a
   component are at least that interval apart, and none happens while it is excluded.
   */
  lemma CallbacksAreSpaced(history: seq<Command>, i: nat, k: nat)
    requires MonotoneClock(history) && i < k < |history|
    requires FiresAt(history, i) && FiresAt(history, k) && history[i].id == history[k].id
    requires !RegisteredBetween(history, history[i].id, i, k)
    ensures !Excluded(history[..k], history[k].id)
    ensures history[k].checked - history[i].marked >= CurrentInterval(history[..k], history[k].id)
  {
    LastRefreshIsRecent(history, i, k);
    StateFollowsHistory(history[..k], history[k].id);
    assert history[i].marked <= history[k].checked;
  }

  /** When the component's callback ran last since it was registered. */
  function LastCallback(history: seq<Command>, id: string): Option<int> {
    if history == [] then None else
    var n := |history| - 1;
    if history[n].Register? && history[n].id == id then None
    else if history[n].Visit? && history[n].id == id && FiresAt(history, n) then Some(history[n].marked)
    else LastCallback(history[..n], id)
  }

  lemma {:induction false} LastRefreshIsLastCallback(history: seq<Command>, id: string)
    requires id in After(history)
    ensures After(history)[id].lastRefresh == LastCallback(history, id)
  {
    var n := |history| - 1;
    if id in After(history[..n]) {
      LastRefreshIsLastCallback(history[..n], id);
    }
  }

  /**
   Exactly when a turn calls back: the component is registered and not left out, and it
   was never called back since its registration or the interval in force has passed.
   */
  lemma CallbackIff(history: seq<Command>, k: nat)
    requires k < |history| && history[k].Visit?
    ensures var before, turn := history[..k], history[k];
            FiresAt(history, k) <==>
              && IsRegistered(before, turn.id) && !Excluded(before, turn.id)
              && (|| LastCallback(before, turn.id).None?
                  || CurrentInterval(before, turn.id) == 0
                  || turn.checked - LastCallback(before, turn.id).value >= CurrentInterval(before, turn.id))
  {
    StateFollowsHistory(history[..k], history[k].id);
    if history[k].id in After(history[..k]) {
      LastRefreshIsLastCallback(history[..k], history[k].id);
    }
  }
}
