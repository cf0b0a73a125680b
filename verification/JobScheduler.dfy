/**
 The daemon's polling scheduler: a min-heap of jobs by next run time. The heap is a
 bag; popping takes any job with the earliest time. Times are milliseconds.
 */
module JobScheduler {
  datatype Job = Job(id: string, nextRun: int, interval: nat)

  predicate Earliest(jobs: seq<Job>, k: nat) {
    k < |jobs| && forall j :: 0 <= j < |jobs| ==> jobs[k].nextRun <= jobs[j].nextRun
  }

  lemma {:induction false} EarliestExists(jobs: seq<Job>) returns (k: nat)
    requires jobs != []
    ensures Earliest(jobs, k)
  {
    k := |jobs| - 1;
    if |jobs| > 1 {
      var m := EarliestExists(jobs[..k]);
      if jobs[m].nextRun <= jobs[k].nextRun {
        assert forall j :: 0 <= j < k ==> jobs[..k][j] == jobs[j];
        k := m;
      } else {
        assert forall j :: 0 <= j < k ==> jobs[..k][m].nextRun <= jobs[..k][j].nextRun;
      }
    }
  }

  predicate InRunOrder(jobs: seq<Job>) {
    forall i, j :: 0 <= i < j < |jobs| ==> jobs[i].nextRun <= jobs[j].nextRun
  }

  /** The run jobs as they go back into the heap: rescheduled from the clock after each run. */
  function Rescheduled(ran: seq<Job>, clock: nat -> int): (r: seq<Job>)
    ensures |r| == |ran|
    ensures forall k :: 0 <= k < |ran| ==> r[k] == ran[k].(nextRun := clock(k) + ran[k].interval)
  {
    seq(|ran|, k requires 0 <= k < |ran| => ran[k].(nextRun := clock(k) + ran[k].interval))
  }

  function Reset(jobs: seq<Job>, id: string, interval: nat, now: int): (r: seq<Job>)
    ensures |r| == |jobs|
    ensures forall k :: 0 <= k < |jobs| ==>
              r[k] == if jobs[k].id == id then Job(id, now + interval, interval) else jobs[k]
  {
    seq(|jobs|, k requires 0 <= k < |jobs| => if jobs[k].id == id then Job(id, now + interval, interval) else jobs[k])
  }

  function Without(jobs: seq<Job>, id: string): seq<Job> {
    if jobs == [] then [] else
    var n := |jobs| - 1;
    Without(jobs[..n], id) + if jobs[n].id == id then [] else [jobs[n]]
  }

  /** One batch at `now`: what is due runs in order of its time; the rest stays, the run jobs are rescheduled. */
  ghost predicate Batch(before: seq<Job>, after: seq<Job>, ran: seq<Job>, now: int, clock: nat -> int) {
    && InRunOrder(ran)
    && exists rest: seq<Job> ::
         && multiset(before) == multiset(rest) + multiset(ran)
         && (forall j <- rest :: j.nextRun > now) && (forall j <- ran :: j.nextRun <= now)
         && after == rest + Rescheduled(ran, clock)
  }

  class Scheduler {
    var jobs: seq<Job>

    constructor ()
      ensures jobs == []
    {
      jobs := [];
    }

    method Push(job: Job)
      modifies this
      ensures jobs == old(jobs) + [job]
    {
      jobs := jobs + [job];
    }

    method PopEarliest() returns (job: Job)
      requires jobs != []
      modifies this
      ensures multiset(old(jobs)) == multiset(jobs) + multiset{job}
      ensures forall j <- old(jobs) :: job.nextRun <= j.nextRun
      ensures forall j <- jobs :: j in old(jobs)
    {
      ghost var witness_ := EarliestExists(jobs);
      var k :| 0 <= k < |jobs| && Earliest(jobs, k);
      job := jobs[k];
      assert forall j <- jobs :: job.nextRun <= j.nextRun by {
        forall j | j in jobs
          ensures job.nextRun <= j.nextRun
        {
          var m :| 0 <= m < |jobs| && jobs[m] == j;
          assert Earliest(jobs, k) && jobs[k].nextRun <= jobs[m].nextRun;
        }
      }
      assert jobs == jobs[..k] + [job] + jobs[k + 1..];
      jobs := jobs[..k] + jobs[k + 1..];
    }

    /** Take out everything due at `now`, earliest first. */
    method CollectDue(now: int) returns (due: seq<Job>)
      modifies this
      ensures multiset(old(jobs)) == multiset(jobs) + multiset(due)
      ensures InRunOrder(due)
      ensures forall j <- due :: j.nextRun <= now
      ensures forall j <- jobs :: j.nextRun > now
    {
      due := [];
      while jobs != []
        invariant multiset(old(jobs)) == multiset(jobs) + multiset(due)
        invariant InRunOrder(due)
        invariant forall d <- due :: d.nextRun <= now && forall j <- jobs :: d.nextRun <= j.nextRun
        decreases |jobs|
      {
        ghost var before := jobs;
        var job := PopEarliest();
        assert |multiset(before)| == |before| && |multiset(jobs)| == |jobs|;
        assert job in multiset(before);
        if job.nextRun <= now {
          due := due + [job];
        } else {
          Push(job);
          assert forall j <- jobs :: j in multiset(before);
          return;
        }
      }
    }

    /**
     One batch: every due job runs once, in order of its time, and goes back with a
     time counted from the clock after its run. `clock(k)` is read after the k-th run.
     */
    method ExecuteDueJobs(now: int, clock: nat -> int) returns (ran: seq<Job>)
      modifies this
      ensures Batch(old(jobs), jobs, ran, now, clock)
    {
      ran := CollectDue(now);
      ghost var rest := jobs;
      for k := 0 to |ran|
        invariant jobs == rest + Rescheduled(ran, clock)[..k]
      {
        var job := ran[k];
        Push(job.(nextRun := clock(k) + job.interval));
        assert Rescheduled(ran, clock)[..k + 1] == Rescheduled(ran, clock)[..k] + [Rescheduled(ran, clock)[k]];
      }
      assert Rescheduled(ran, clock)[..|ran|] == Rescheduled(ran, clock);
    }

    method UpdateJobInterval(id: string, interval: nat, now: int)
      modifies this
      ensures jobs == Reset(old(jobs), id, interval, now)
    {
      var drained := jobs;
      jobs := [];
      for k := 0 to |drained|
        invariant jobs == Reset(drained, id, interval, now)[..k]
      {
        var job := drained[k];
        if job.id == id {
          job := job.(interval := interval, nextRun := now + interval);
        }
        Push(job);
      }
    }

    method RemoveJob(id: string)
      modifies this
      ensures jobs == Without(old(jobs), id)
    {
      var drained := jobs;
      jobs := [];
      for k := 0 to |drained|
        invariant jobs == Without(drained[..k], id)
      {
        assert drained[..k + 1][..k] == drained[..k];
        if drained[k].id != id {
          Push(drained[k]);
        }
      }
      assert drained[..|drained|] == drained;
    }
  }

  // ----- removal and reset -----

  /** Jobs are removed one by one, in order. */
  lemma {:induction false} WithoutAppends(a: seq<Job>, b: seq<Job>, id: string)
    ensures Without(a + b, id) == Without(a, id) + Without(b, id)
  {
    if b == [] {
      assert a + b == a;
    } else {
      var n := |b| - 1;
      assert (a + b)[..|a + b| - 1] == a + b[..n];
      WithoutAppends(a, b[..n], id);
    }
  }

  /** Removal takes out every job of the id and no other, however often it is there. */
  lemma {:induction false} RemovalIsExact(jobs: seq<Job>, id: string, job: Job)
    ensures multiset(Without(jobs, id))[job] == if job.id == id then 0 else multiset(jobs)[job]
  {
    if jobs != [] {
      var n := |jobs| - 1;
      RemovalIsExact(jobs[..n], id, job);
      assert jobs == jobs[..n] + [jobs[n]];
    }
  }

  /** A removed job never runs again, and a reset one not before its new interval is over. */
  lemma RemovedJobsDoNotRun(jobs: seq<Job>, id: string, after: seq<Job>, ran: seq<Job>, now: int, clock: nat -> int)
    requires Batch(Without(jobs, id), after, ran, now, clock)
    ensures forall j <- ran :: j.id != id
  {
    forall j | j in ran
      ensures j.id != id
    {
      RemovalIsExact(jobs, id, j);
      DueJobsRunExactlyOnce(Without(jobs, id), after, ran, now, clock, j);
      assert multiset(ran)[j] > 0;
    }
  }

  lemma ResetJobsWait(jobs: seq<Job>, id: string, interval: nat, reset: int,
                      after: seq<Job>, ran: seq<Job>, now: int, clock: nat -> int)
    requires Batch(Reset(jobs, id, interval, reset), after, ran, now, clock) && now < reset + interval
    ensures forall j <- ran :: j.id != id
  {
    forall j | j in ran
      ensures j.id != id
    {
      DueJobsRunExactlyOnce(Reset(jobs, id, interval, reset), after, ran, now, clock, j);
      assert multiset(ran)[j] > 0;
      assert j in multiset(Reset(jobs, id, interval, reset));
    }
  }

  // ----- what a batch does to the bag -----

  lemma BatchParts(before: seq<Job>, after: seq<Job>, ran: seq<Job>, now: int, clock: nat -> int)
    returns (rest: seq<Job>)
    requires Batch(before, after, ran, now, clock)
    ensures multiset(before) == multiset(rest) + multiset(ran) && after == rest + Rescheduled(ran, clock)
    ensures (forall j <- rest :: j.nextRun > now) && (forall j <- ran :: j.nextRun <= now)
  {
    rest :| multiset(before) == multiset(rest) + multiset(ran)
            && (forall j <- rest :: j.nextRun > now) && (forall j <- ran :: j.nextRun <= now)
            && after == rest + Rescheduled(ran, clock);
  }

  /** A batch runs its jobs earliest first, and none before its time. */
  lemma BatchRunsInOrder(before: seq<Job>, after: seq<Job>, ran: seq<Job>, now: int, clock: nat -> int)
    requires Batch(before, after, ran, now, clock)
    ensures forall i, j :: 0 <= i < j < |ran| ==> ran[i].nextRun <= ran[j].nextRun
    ensures forall k :: 0 <= k < |ran| ==> ran[k].nextRun <= now
  {
    var rest := BatchParts(before, after, ran, now, clock);
  }

  /** It puts each back with a time counted from the end of its run. */
  lemma RunJobsGoBack(before: seq<Job>, after: seq<Job>, ran: seq<Job>, now: int, clock: nat -> int, k: nat)
    requires Batch(before, after, ran, now, clock) && k < |ran|
    ensures Job(ran[k].id, clock(k) + ran[k].interval, ran[k].interval) in after
  {
    var rest := BatchParts(before, after, ran, now, clock);
    assert after[|rest| + k] == Rescheduled(ran, clock)[k];
  }

  /** It keeps what is not due, and neither loses nor makes a job. */
  lemma OtherJobsStay(before: seq<Job>, after: seq<Job>, ran: seq<Job>, now: int, clock: nat -> int, job: Job)
    requires Batch(before, after, ran, now, clock)
    ensures job in before && job.nextRun > now ==> job in after
    ensures |after| == |before|
  {
    var rest := BatchParts(before, after, ran, now, clock);
    assert |multiset(before)| == |before| && |multiset(rest)| == |rest| && |multiset(ran)| == |ran|;
    if job in before && job.nextRun > now {
      assert job in multiset(before) && job in multiset(rest) + multiset(ran);
      assert job !in multiset(ran);
    }
  }

  /** Every due job runs exactly as often as it is in the heap, and nothing else runs. */
  lemma DueJobsRunExactlyOnce(before: seq<Job>, after: seq<Job>, ran: seq<Job>, now: int, clock: nat -> int, job: Job)
    requires Batch(before, after, ran, now, clock)
    ensures multiset(ran)[job] == if job.nextRun <= now then multiset(before)[job] else 0
  {
    var rest: seq<Job> :| multiset(before) == multiset(rest) + multiset(ran)
      && (forall j <- rest :: j.nextRun > now) && (forall j <- ran :: j.nextRun <= now)
      && after == rest + Rescheduled(ran, clock);
    assert job in rest <==> job in multiset(rest);
    assert job in ran <==> job in multiset(ran);
  }

  function Ids(jobs: seq<Job>): (r: seq<(string, nat)>)
    ensures |r| == |jobs| && forall k :: 0 <= k < |jobs| ==> r[k] == (jobs[k].id, jobs[k].interval)
  {
    seq(|jobs|, k requires 0 <= k < |jobs| => (jobs[k].id, jobs[k].interval))
  }

  function TakenOut<T>(s: seq<T>, k: nat): seq<T>
    requires k < |s|
  {
    s[..k] + s[k + 1..]
  }

  lemma TakingOutRemovesOne<T>(s: seq<T>, k: nat)
    requires k < |s|
    ensures multiset(s) == multiset(TakenOut(s, k)) + multiset{s[k]}
  {
    assert s == s[..k] + [s[k]] + s[k + 1..];
  }

  lemma IdsTakenOut(jobs: seq<Job>, k: nat)
    requires k < |jobs|
    ensures multiset(Ids(jobs)) == multiset(Ids(TakenOut(jobs, k))) + multiset{(jobs[k].id, jobs[k].interval)}
  {
    TakingOutRemovesOne(Ids(jobs), k);
    assert Ids(TakenOut(jobs, k)) == TakenOut(Ids(jobs), k);
  }

  lemma {:induction false} IdsOfSameBag(a: seq<Job>, b: seq<Job>)
    requires multiset(a) == multiset(b)
    ensures multiset(Ids(a)) == multiset(Ids(b))
    decreases |a|
  {
    assert |multiset(a)| == |a| && |multiset(b)| == |b|;
    if a != [] {
      assert a[0] in multiset(b);
      var k :| 0 <= k < |b| && b[k] == a[0];
      TakingOutRemovesOne(a, 0);
      TakingOutRemovesOne(b, k);
      assert multiset(TakenOut(a, 0)) == multiset(a) - multiset{a[0]};
      assert multiset(TakenOut(b, k)) == multiset(b) - multiset{b[k]};
      IdsOfSameBag(TakenOut(a, 0), TakenOut(b, k));
      IdsTakenOut(a, 0);
      IdsTakenOut(b, k);
    }
  }

  /** The jobs themselves, by id and interval, are conserved; only times move. */
  lemma JobsAreConserved(before: seq<Job>, after: seq<Job>, ran: seq<Job>, now: int, clock: nat -> int)
    requires Batch(before, after, ran, now, clock)
    ensures multiset(Ids(after)) == multiset(Ids(before))
  {
    var rest: seq<Job> :| multiset(before) == multiset(rest) + multiset(ran)
      && (forall j <- rest :: j.nextRun > now) && (forall j <- ran :: j.nextRun <= now)
      && after == rest + Rescheduled(ran, clock);
    assert multiset(rest + ran) == multiset(before);
    IdsOfSameBag(rest + ran, before);
    assert Ids(after) == Ids(rest + ran);
  }

  /** Once the batch is over a job is due again only if its interval is zero and the clock did not move. */
  lemma BatchLeavesOnlyZeroIntervalsDue(before: seq<Job>, after: seq<Job>, ran: seq<Job>, now: int, clock: nat -> int)
    requires Batch(before, after, ran, now, clock) && forall k: nat :: now <= clock(k)
    ensures forall j <- after :: j.nextRun <= now ==> j.interval == 0 && j.nextRun == now
  {}

  lemma NothingDueAfterBatch(a: seq<Job>, b: seq<Job>, ran: seq<Job>, now: int, clock: nat -> int)
    requires Batch(a, b, ran, now, clock) && forall k: nat :: now <= clock(k)
    requires forall j <- a :: j.interval > 0
    ensures forall j <- b :: j.nextRun > now
  {
    var rest: seq<Job> :| multiset(a) == multiset(rest) + multiset(ran)
      && (forall j <- rest :: j.nextRun > now) && (forall j <- ran :: j.nextRun <= now)
      && b == rest + Rescheduled(ran, clock);
    forall k | 0 <= k < |ran|
      ensures Rescheduled(ran, clock)[k].nextRun > now
    {
      assert ran[k] in multiset(a);
    }
  }

  /** Two batches in a row at the same time: with positive intervals the second runs nothing. */
  lemma SecondBatchIsEmpty(a: seq<Job>, b: seq<Job>, c: seq<Job>, ran: seq<Job>, again: seq<Job>,
                           now: int, clock: nat -> int, later: nat -> int)
    requires Batch(a, b, ran, now, clock) && Batch(b, c, again, now, later)
    requires forall k: nat :: now <= clock(k)
    requires forall j <- a :: j.interval > 0
    ensures again == []
  {
    NothingDueAfterBatch(a, b, ran, now, clock);
    forall job
      ensures multiset(again)[job] == 0
    {
      DueJobsRunExactlyOnce(b, c, again, now, later, job);
      assert job in b <==> job in multiset(b);
    }
    assert multiset(again) == multiset{} && |again| == |multiset(again)|;
  }
}
