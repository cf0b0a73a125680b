/**
 The take-once channel that carries the outcome of a deferred GPU attempt to the
 GUI. Identical failures in a row form a series and are published once; a clean
 completion ends the series.
 */
module DeferredReport {
  import opened Wrappers
  import opened GpuOps
  import opened Common

  datatype Origin = ProfileApply | IdleRestore

  datatype ReportOutcome = Applied | AppliedWithWarnings | AttemptFailed

  datatype Report = Report(text: string, outcome: ReportOutcome, origin: Origin)

  datatype ReportState = ReportState(pending: Option<Report>, lastPublished: Option<string>)

  const EMPTY := ReportState(None, None)
  const CLEAN_TEXT := "Deferred GPU settings applied"

  function Entry(f: OpFailure): string {
    f.op + ": " + f.message
  }

  /** Entries for operations the adapter does not support. */
  function Warnings(failures: seq<OpFailure>): seq<string> {
    if failures == [] then [] else
    var f := failures[|failures| - 1];
    Warnings(failures[..|failures| - 1]) + (if f.kind == Unsupported then [Entry(f)] else [])
  }

  /** Entries for everything else, a gate refusal included. */
  function Fatal(failures: seq<OpFailure>): seq<string> {
    if failures == [] then [] else
    var f := failures[|failures| - 1];
    Fatal(failures[..|failures| - 1]) + (if f.kind == Unsupported then [] else [Entry(f)])
  }

  method SplitFailures(failures: seq<OpFailure>) returns (warnings: seq<string>, fatal: seq<string>)
    ensures warnings == Warnings(failures) && fatal == Fatal(failures)
  {
    warnings, fatal := [], [];
    for i := 0 to |failures|
      invariant warnings == Warnings(failures[..i]) && fatal == Fatal(failures[..i])
    {
      assert failures[..i + 1][..i] == failures[..i];
      if failures[i].kind == Unsupported {
        warnings := warnings + [Entry(failures[i])];
      } else {
        fatal := fatal + [Entry(failures[i])];
      }
    }
    assert failures[..|failures|] == failures;
  }

  /** Failures are sorted one by one, in order. */
  lemma {:induction false} SplitAppends(a: seq<OpFailure>, b: seq<OpFailure>)
    ensures Warnings(a + b) == Warnings(a) + Warnings(b) && Fatal(a + b) == Fatal(a) + Fatal(b)
  {
    if b == [] {
      assert a + b == a;
    } else {
      var n := |b| - 1;
      assert (a + b)[..|a + b| - 1] == a + b[..n];
      SplitAppends(a, b[..n]);
    }
  }

  /** One failure: an unsupported operation warns, anything else is fatal, and the entry names operation and message. */
  lemma SplitOfOne(f: OpFailure)
    ensures f.kind == Unsupported ==> Warnings([f]) == [f.op + ": " + f.message] && Fatal([f]) == []
    ensures f.kind != Unsupported ==> Warnings([f]) == [] && Fatal([f]) == [f.op + ": " + f.message]
  {
    assert [f][..0] == [] && [f][0] == f;
  }

  /** No failure is lost or counted twice, and there is no fatal entry exactly when all are unsupported. */
  lemma {:induction false} SplitCoversFailures(failures: seq<OpFailure>)
    ensures |Warnings(failures)| + |Fatal(failures)| == |failures|
    ensures Fatal(failures) == [] <==> forall f <- failures :: f.kind == Unsupported
    ensures Warnings(failures) == [] <==> forall f <- failures :: f.kind != Unsupported
  {
    if failures != [] {
      var n := |failures| - 1;
      SplitCoversFailures(failures[..n]);
      assert failures == failures[..n] + [failures[n]];
    }
  }

  function Text(failures: seq<OpFailure>): string {
    var warnings, fatal := Warnings(failures), Fatal(failures);
    if fatal == [] then "Deferred GPU step applied with warnings: " + Join(warnings, "; ")
    else if warnings == [] then "Deferred GPU step failed: " + Join(fatal, "; ")
    else "Deferred GPU step failed: " + Join(fatal, "; ") + " (unsupported: " + Join(warnings, "; ") + ")"
  }

  function OutcomeOf(failures: seq<OpFailure>): ReportOutcome {
    if Fatal(failures) == [] then AppliedWithWarnings else AttemptFailed
  }

  /** `part` stands somewhere in `whole`. */
  ghost predicate Contains(whole: string, part: string) {
    exists before: string, after: string :: whole == before + part + after
  }

  lemma ContainsWider(whole: string, part: string, left: string, right: string)
    requires Contains(whole, part)
    ensures Contains(left + whole + right, part)
  {
    var before: string, after: string :| whole == before + part + after;
    assert left + whole + right == (left + before) + part + (after + right);
  }

  lemma {:induction false} JoinContains(parts: seq<string>, separator: string, k: nat)
    requires k < |parts|
    ensures Contains(Join(parts, separator), parts[k])
  {
    var whole := Join(parts, separator);
    if |parts| == 1 {
      assert whole == "" + parts[0] + "";
    } else if k == 0 {
      assert whole == "" + parts[0] + (separator + Join(parts[1..], separator));
    } else {
      JoinContains(parts[1..], separator, k - 1);
      ContainsWider(Join(parts[1..], separator), parts[k], parts[0] + separator, "");
      assert whole == parts[0] + separator + Join(parts[1..], separator) + "";
    }
  }

  /** The report's outcome is a warning exactly when every failure is an unsupported operation. */
  lemma OutcomeIsWarningIff(failures: seq<OpFailure>)
    ensures OutcomeOf(failures) ==
              if forall f <- failures :: f.kind == Unsupported then AppliedWithWarnings else AttemptFailed
  {
    SplitCoversFailures(failures);
  }

  lemma ListedInside(head: string, parts: seq<string>, k: nat, tail: string)
    requires k < |parts|
    ensures Contains(head + Join(parts, "; ") + tail, parts[k])
  {
    JoinContains(parts, "; ", k);
    ContainsWider(Join(parts, "; "), parts[k], head, tail);
  }

  const WARNED := "Deferred GPU step applied with warnings: "
  const FAILED := "Deferred GPU step failed: "

  /** Its text says so at the start. */
  lemma TextTellsOutcome(failures: seq<OpFailure>)
    ensures (if forall f <- failures :: f.kind == Unsupported then WARNED else FAILED) <= Text(failures)
  {
    SplitCoversFailures(failures);
  }

  lemma WarningIsInText(failures: seq<OpFailure>, i: nat)
    requires i < |Warnings(failures)|
    ensures Contains(Text(failures), Warnings(failures)[i])
  {
    var warnings, fatal := Warnings(failures), Fatal(failures);
    if fatal == [] {
      ListedInside(WARNED, warnings, i, "");
      assert Text(failures) == WARNED + Join(warnings, "; ") + "";
    } else {
      var head := FAILED + Join(fatal, "; ") + " (unsupported: ";
      ListedInside(head, warnings, i, ")");
      assert Text(failures) == head + Join(warnings, "; ") + ")";
    }
  }

  lemma FailureIsInText(failures: seq<OpFailure>, i: nat)
    requires i < |Fatal(failures)|
    ensures Contains(Text(failures), Fatal(failures)[i])
  {
    var warnings, fatal := Warnings(failures), Fatal(failures);
    var listed := Join(warnings, "; ");
    if warnings == [] {
      ListedInside(FAILED, fatal, i, "");
      assert Text(failures) == FAILED + Join(fatal, "; ") + "";
    } else {
      ListedInside(FAILED, fatal, i, " (unsupported: " + listed + ")");
      TailTogether(FAILED + Join(fatal, "; "), " (unsupported: ", listed, ")");
      assert Text(failures) == FAILED + Join(fatal, "; ") + " (unsupported: " + listed + ")";
    }
  }

  lemma TailTogether(head: string, x: string, y: string, z: string)
    ensures head + x + y + z == head + (x + y + z)
  {}

  /** And it contains the operation and message of every failure. */
  lemma TextTellsEverything(failures: seq<OpFailure>, k: nat)
    requires k < |failures|
    ensures Contains(Text(failures), failures[k].op + ": " + failures[k].message)
  {
    var entry := failures[k].op + ": " + failures[k].message;
    EntryIsSorted(failures, k);
    if failures[k].kind == Unsupported {
      var i :| 0 <= i < |Warnings(failures)| && Warnings(failures)[i] == entry;
      WarningIsInText(failures, i);
    } else {
      var i :| 0 <= i < |Fatal(failures)| && Fatal(failures)[i] == entry;
      FailureIsInText(failures, i);
    }
  }

  lemma EntryIsSorted(failures: seq<OpFailure>, k: nat)
    requires k < |failures|
    ensures var entry := failures[k].op + ": " + failures[k].message;
            if failures[k].kind == Unsupported
            then exists i :: 0 <= i < |Warnings(failures)| && Warnings(failures)[i] == entry
            else exists i :: 0 <= i < |Fatal(failures)| && Fatal(failures)[i] == entry
  {
    var a, b := failures[..k], failures[k + 1..];
    assert failures == a + [failures[k]] + b;
    SplitAppends(a + [failures[k]], b);
    SplitAppends(a, [failures[k]]);
    SplitOfOne(failures[k]);
    if failures[k].kind == Unsupported {
      assert Warnings(failures)[|Warnings(a)|] == failures[k].op + ": " + failures[k].message;
    } else {
      assert Fatal(failures)[|Fatal(a)|] == failures[k].op + ": " + failures[k].message;
    }
  }

  function Publish(s: ReportState, origin: Origin, failures: seq<OpFailure>): ReportState {
    if failures == [] then
      var ended := s.(lastPublished := None);
      if origin == ProfileApply then ended.(pending := Some(Report(CLEAN_TEXT, Applied, origin))) else ended
    else
      var text := Text(failures);
      if s.lastPublished == Some(text) then s
      else ReportState(Some(Report(text, OutcomeOf(failures), origin)), Some(text))
  }

  class ReportChannel {
    var pending: Option<Report>
    var lastPublished: Option<string>

    function State(): ReportState
      reads this
    {
      ReportState(pending, lastPublished)
    }

    constructor ()
      ensures State() == EMPTY
    {
      pending, lastPublished := None, None;
    }

    method PublishOutcome(origin: Origin, failures: seq<OpFailure>)
      modifies this
      ensures State() == Publish(old(State()), origin, failures)
    {
      if failures == [] {
        lastPublished := None;
        if origin == ProfileApply {
          pending := Some(Report(CLEAN_TEXT, Applied, origin));
        }
        return;
      }
      var warnings, fatal := SplitFailures(failures);
      var text, outcome;
      if fatal == [] {
        text, outcome := "Deferred GPU step applied with warnings: " + Join(warnings, "; "), AppliedWithWarnings;
      } else if warnings == [] {
        text, outcome := "Deferred GPU step failed: " + Join(fatal, "; "), AttemptFailed;
      } else {
        text := "Deferred GPU step failed: " + Join(fatal, "; ") + " (unsupported: " + Join(warnings, "; ") + ")";
        outcome := AttemptFailed;
      }
      if lastPublished == Some(text) {
        return;
      }
      lastPublished := Some(text);
      pending := Some(Report(text, outcome, origin));
    }

    method Take() returns (report: Option<Report>)
      modifies this
      ensures report == old(State()).pending
      ensures State() == old(State()).(pending := None)
    {
      report := pending;
      pending := None;
    }
  }

  // ----- what a whole history of completions and takes delivers -----

  datatype Event = Completion(origin: Origin, failures: seq<OpFailure>) | Taken

  /** The channel after a history, from an empty channel. */
  function After(history: seq<Event>): ReportState {
    if history == [] then EMPTY else
    var before := After(history[..|history| - 1]);
    match history[|history| - 1]
    case Completion(o, f) => Publish(before, o, f)
    case Taken => before.(pending := None)
  }

  /** The text of the latest completion; none when it was clean or there was none. */
  function Standing(history: seq<Event>): Option<string> {
    if history == [] then None else
    match history[|history| - 1]
    case Completion(_, f) => if f == [] then None else Some(Text(f))
    case Taken => Standing(history[..|history| - 1])
  }

  /**
   What the GUI must be told about since it last took a report: a failing
   completion unless it repeats the one before it, and a clean one of a profile.
   */
  function Undelivered(history: seq<Event>): seq<Report> {
    if history == [] then [] else
    var before := history[..|history| - 1];
    match history[|history| - 1]
    case Taken => []
    case Completion(o, f) =>
      Undelivered(before) + Due(Standing(before), o, f)
  }

  /**
   Delivery: what a take hands over is the newest report that became due since
   the previous take, and nothing when none did, so no report is handed over twice.
   */
  lemma {:induction false} TakeDeliversNewest(history: seq<Event>)
    ensures After(history).lastPublished == Standing(history)
    ensures After(history).pending == Newest(Undelivered(history))
  {
    if history != [] {
      var before, last := history[..|history| - 1], history[|history| - 1];
      TakeDeliversNewest(before);
      match last {
        case Taken =>
        case Completion(o, f) =>
          PublishExtends(After(before), Undelivered(before), Standing(before), o, f);
      }
    }
  }

  /** Reports that become due with one completion, given the text standing before it. */
  function Due(standing: Option<string>, o: Origin, f: seq<OpFailure>): seq<Report> {
    if f == [] then
      if o == ProfileApply then [Report(CLEAN_TEXT, Applied, o)] else []
    else if standing == Some(Text(f)) then []
    else [Report(Text(f), OutcomeOf(f), o)]
  }

  function Newest(due: seq<Report>): Option<Report> {
    if due == [] then None else Some(due[|due| - 1])
  }

  lemma PublishExtends(s: ReportState, due: seq<Report>, standing: Option<string>, o: Origin, f: seq<OpFailure>)
    requires s == ReportState(Newest(due), standing)
    ensures Publish(s, o, f) == ReportState(Newest(due + Due(standing, o, f)), if f == [] then None else Some(Text(f)))
  {}

  /** Clean completions of the idle restore are silent, however many of them there are. */
  lemma {:induction false} IdleRestoresAreSilent(history: seq<Event>, more: seq<Event>)
    requires forall e <- more :: e == Completion(IdleRestore, [])
    ensures After(history + more).pending == After(history).pending
  {
    if more == [] {
      assert history + more == history;
    } else {
      var n := |more| - 1;
      assert (history + more)[..|history + more| - 1] == history + more[..n];
      assert forall e <- more[..n] :: e in more;
      IdleRestoresAreSilent(history, more[..n]);
      assert more[n] in more;
    }
  }
}
