/**
 * Retries over whole runs of the parallel workers: if all of them use one exponential backoff, every job's executions
 * form a failing sequence of that backoff, however the workers interleave; so its arithmetic bounds hold for the
 * engine.
 */
module JobRetries {
  import opened Common
  import opened JobBackoff
  import opened JobStore
  import opened JobWorkers

  /** The times at which a job was started. */
  function Starts(log: seq<Entry>, id: Id): seq<int> {
    if log == [] then []
    else
      var n := |log| - 1;
      if log[n].JobStarted? && log[n].id == id then Starts(log[..n], id) + [log[n].at] else Starts(log[..n], id)
  }

  lemma StartsSnoc(log: seq<Entry>, e: Entry, id: Id)
    ensures Starts(log + [e], id) == if e.JobStarted? && e.id == id then Starts(log, id) + [e.at] else Starts(log, id)
  {
    assert (log + [e])[..|log|] == log;
  }

  /** The next try of a job that was started at these times. */
  function NextAfter(b: Backoff, creation: int, starts: seq<int>): NextTry
    requires starts != []
  {
    CalculateNextTryTime(b, |starts|, starts[|starts| - 1], creation)
  }

  /** A stored job that waits for its next try carries the books of the starts so far. */
  predicate Booked(b: Backoff, j: Job, creation: int, starts: seq<int>) {
    && j.creationTime == creation && j.tryCount == |starts|
    && (starts != [] ==> NextAfter(b, creation, starts) == if j.nextTryTime.Some? then At(j.nextTryTime.value)
      else Never)
  }

  /** A job being executed carries the books of the starts including the current one. */
  predicate BookedRunning(j: Job, creation: int, starts: seq<int>) {
    && j.creationTime == creation && j.tryCount == |starts| && starts != []
    && j.lastTryTime == Some(starts[|starts| - 1])
  }

  function RunningJob(s: State, id: Id): Option<Job> {
    if id in s.locks && Task(s.locks[id], id) in s.tasks && s.tasks[Task(s.locks[id], id)].Executing?
    then Some(s.tasks[Task(s.locks[id], id)].job) else None
  }

  ghost predicate ValidTries(s: State, b: Backoff, id: Id) {
    var starts := Starts(s.log, id);
    && (id !in s.created ==> starts == [] && id !in s.rows)
    && (id in s.created ==>
      && 0 <= s.created[id] <= s.now
      && Failing(b, s.created[id], starts)
      && (RunningJob(s, id).Some? ==> BookedRunning(RunningJob(s, id).value, s.created[id], starts))
      && (RunningJob(s, id).None? && id in s.rows && Live(s.rows[id]) ==> Booked(b, s.rows[id], s.created[id], starts)))
  }

  ghost predicate AllUse(workers: Workers, b: Backoff) {
    forall w :: workers(w).retryRule == ExponentialBackoff(b)
  }

  ghost predicate TriesInv(s: State, b: Backoff) { forall id :: ValidTries(s, b, id) }

  lemma StartExtends(b: Backoff, j: Job, creation: int, starts: seq<int>, now: int)
    requires Failing(b, creation, starts) && Booked(b, j, creation, starts) && 0 <= creation <= now
    requires j.nextTryTime.Some? && j.nextTryTime.value <= now
    ensures Failing(b, creation, starts + [now]) && BookedRunning(Started(j, now), creation, starts + [now])
  {
    assert (starts + [now])[..|starts|] == starts;
  }

  /** What a step must leave alone for a job's books to stay in order. */
  lemma TriesStay(s: State, s': State, b: Backoff, id: Id)
    requires ValidTries(s, b, id) && s.now <= s'.now
    requires id in s'.created <==> id in s.created
    requires id in s.created ==> s'.created[id] == s.created[id]
    requires Starts(s'.log, id) == Starts(s.log, id) && RunningJob(s', id) == RunningJob(s, id)
    requires id in s'.rows && RunningJob(s', id).None? ==> id in s.rows && s'.rows[id] == s.rows[id]
    requires id in s'.rows ==> id in s.created
    ensures ValidTries(s', b, id)
  {
  }

  lemma StartedJob(s: State, t: Task, o: WorkerOptions, inMemory: bool)
    requires t in s.tasks && s.tasks[t].Found? && IsJobEligible(s.tasks[t].found, o, s.now)
    requires t.id in s.locks && s.locks[t.id] == t.worker
    ensures var s' := AfterCheck(s, t, o, inMemory);
      && s'.now == s.now && s'.created == s.created && Starts(s'.log, t.id) == Starts(s.log, t.id) + [s.now]
      && RunningJob(s, t.id).None? && RunningJob(s', t.id) == Some(Started(s.tasks[t].found.value, s.now))
  {
    StartsSnoc(s.log, JobStarted(t.id, s.now), t.id);
  }

  lemma StartOwnTries(s: State, t: Task, o: WorkerOptions, inMemory: bool, b: Backoff)
    requires Inv(s) && ValidTries(s, b, t.id)
    requires t in s.tasks && s.tasks[t].Found? && IsJobEligible(s.tasks[t].found, o, s.now)
    ensures ValidTries(AfterCheck(s, t, o, inMemory), b, t.id)
  {
    EligibleJob(s, t, o);
    StartedJob(s, t, o, inMemory);
    StartExtends(b, s.rows[t.id], s.created[t.id], Starts(s.log, t.id), s.now);
  }

  lemma OtherTaskMoved(s: State, t: Task, p: Phase, rows: Rows, log: seq<Entry>, id: Id)
    requires id != t.id
    ensures RunningJob(s.(tasks := s.tasks[t := p], rows := rows, log := log), id) == RunningJob(s, id)
  {
  }

  /** Checking one job leaves the others alone. */
  lemma CheckElsewhere(s: State, t: Task, o: WorkerOptions, inMemory: bool, id: Id)
    requires id != t.id
    ensures var s' := AfterCheck(s, t, o, inMemory);
      && s'.now == s.now && s'.created == s.created && Starts(s'.log, id) == Starts(s.log, id)
      && RunningJob(s', id) == RunningJob(s, id) && (id in s'.rows <==> id in s.rows) &&
        (id in s.rows ==> s'.rows[id] == s.rows[id])
  {
    StartsSnoc(s.log, JobStarted(t.id, s.now), id);
    var s' := AfterCheck(s, t, o, inMemory);
    if t in s.tasks && s.tasks[t].Found? {
      var p := s'.tasks[t];
      assert s' == s.(tasks := s.tasks[t := p], rows := s'.rows, log := s'.log);
      OtherTaskMoved(s, t, p, s'.rows, s'.log, id);
    }
  }

  lemma StartOtherTries(s: State, t: Task, o: WorkerOptions, inMemory: bool, b: Backoff, id: Id)
    requires ValidTries(s, b, id) && id != t.id && (id in s.rows ==> id in s.created)
    ensures ValidTries(AfterCheck(s, t, o, inMemory), b, id)
  {
    CheckElsewhere(s, t, o, inMemory, id);
    TriesStay(s, AfterCheck(s, t, o, inMemory), b, id);
  }

  lemma StartKeepsTries(s: State, t: Task, o: WorkerOptions, inMemory: bool, b: Backoff, id: Id)
    requires Inv(s) && TriesInv(s, b)
    ensures ValidTries(AfterCheck(s, t, o, inMemory), b, id)
  {
    assert ValidTries(s, b, id);
    if id != t.id {
      assert ValidJob(s, id);
      StartOtherTries(s, t, o, inMemory, b, id);
    } else if t in s.tasks && s.tasks[t].Found? && IsJobEligible(s.tasks[t].found, o, s.now) {
      StartOwnTries(s, t, o, inMemory, b);
    } else {
      TriesStay(s, AfterCheck(s, t, o, inMemory), b, id);
    }
  }

  lemma FinishBooks(b: Backoff, j: Job, outcome: Outcome, o: WorkerOptions, now: int, creation: int, starts: seq<int>)
    requires BookedRunning(j, creation, starts) && Live(j) && o.retryRule == ExponentialBackoff(b)
    ensures var after := AfterOutcome(j, outcome, o, now);
      after.Some? && Live(after.value) ==> Booked(b, after.value, creation, starts)
  {
  }

  lemma ExecutingJob(s: State, t: Task)
    requires Inv(s) && t in s.tasks && s.tasks[t].Executing?
    ensures RunningJob(s, t.id) == Some(s.tasks[t].job) && Live(s.tasks[t].job) && t.id in s.created
  {
    assert ValidTask(s, t) && ValidJob(s, t.id);
  }

  lemma FinishKeepsTries(s: State, t: Task, outcome: Outcome, o: WorkerOptions, inMemory: bool, b: Backoff, id: Id)
    requires Inv(s) && TriesInv(s, b) && o.retryRule == ExponentialBackoff(b)
    ensures ValidTries(AfterFinish(s, t, outcome, o, inMemory), b, id)
  {
    assert ValidTries(s, b, id);
    var s' := AfterFinish(s, t, outcome, o, inMemory);
    if t in s.tasks && s.tasks[t].Executing? {
      var j := s.tasks[t].job;
      ExecutingJob(s, t);
      StartsSnoc(s.log, EntryFor(t.id, outcome, AfterOutcome(j, outcome, o, s.now)), id);
      if id == t.id {
        FinishBooks(b, j, outcome, o, s.now, s.created[id], Starts(s.log, id));
        assert RunningJob(s', id).None?;
      } else {
        TriesStay(s, s', b, id);
      }
    }
  }

  lemma InsertKeepsTries(s: State, job: Job, workers: Workers, inMemory: bool, b: Backoff, id: Id)
    requires Inv(s) && TriesInv(s, b)
    ensures ValidTries(Step(s, Insert(job), workers, inMemory), b, id)
  {
    assert ValidTries(s, b, id) && ValidJob(s, id);
    if id == job.id && id !in s.created { assert RunningJob(s, id).None?; }
  }

  lemma LookUpKeepsTries(s: State, t: Task, workers: Workers, inMemory: bool, b: Backoff, id: Id)
    requires Inv(s) && TriesInv(s, b)
    ensures ValidTries(Step(s, LookUp(t), workers, inMemory), b, id)
  {
    assert ValidTries(s, b, id);
    TriesStay(s, Step(s, LookUp(t), workers, inMemory), b, id);
  }

  lemma ReleaseKeepsTries(s: State, t: Task, b: Backoff, id: Id)
    requires Inv(s) && TriesInv(s, b)
    ensures ValidTries(AfterRelease(s, t), b, id)
  {
    assert ValidTries(s, b, id);
    if t in s.tasks { assert ValidTask(s, t); }
    TriesStay(s, AfterRelease(s, t), b, id);
  }

  lemma ClaimKeepsTries(s: State, w: WorkerId, o: WorkerOptions, b: Backoff, id: Id)
    requires Inv(s) && TriesInv(s, b)
    ensures ValidTries(AfterClaim(s, w, o), b, id)
  {
    assert ValidTries(s, b, id);
    TriesStay(s, AfterClaim(s, w, o), b, id);
  }

  lemma OtherStepKeepsTries(s: State, e: Event, workers: Workers, inMemory: bool, b: Backoff, id: Id)
    requires TriesInv(s, b) && (e.Tick? || e.Fetch? || e.EndCycle?)
    ensures ValidTries(Step(s, e, workers, inMemory), b, id)
  {
    assert ValidTries(s, b, id);
    TriesStay(s, Step(s, e, workers, inMemory), b, id);
  }

  lemma CleanUpKeepsTries(s: State, removed: Id, workers: Workers, inMemory: bool, b: Backoff, id: Id)
    requires TriesInv(s, b)
    ensures ValidTries(Step(s, CleanUp(removed), workers, inMemory), b, id)
  {
    assert ValidTries(s, b, id);
    TriesStay(s, Step(s, CleanUp(removed), workers, inMemory), b, id);
  }

  lemma {:induction false} RunKeepsTries(s: State, events: seq<Event>, workers: Workers, inMemory: bool, b: Backoff)
    requires Inv(s) && TriesInv(s, b) && AllUse(workers, b)
    ensures TriesInv(Run(s, events, workers, inMemory), b)
    decreases |events|
  {
    if events != [] {
      var s' := Step(s, events[0], workers, inMemory);
      forall id ensures ValidTries(s', b, id) {
        match events[0] {
          case Insert(job) => InsertKeepsTries(s, job, workers, inMemory, b, id);
          case Check(t) => StartKeepsTries(s, t, workers(t.worker), inMemory, b, id);
          case Finish(t, outcome) => FinishKeepsTries(s, t, outcome, workers(t.worker), inMemory, b, id);
          case LookUp(t) => LookUpKeepsTries(s, t, workers, inMemory, b, id);
          case Release(t) => ReleaseKeepsTries(s, t, b, id);
          case Claim(w) => ClaimKeepsTries(s, w, workers(w), b, id);
          case CleanUp(removed) => CleanUpKeepsTries(s, removed, workers, inMemory, b, id);
          case _ => OtherStepKeepsTries(s, events[0], workers, inMemory, b, id);
        }
      }
      StepKeepsInv(s, events[0], workers, inMemory);
      RunKeepsTries(s', events[1..], workers, inMemory, b);
    }
  }

  /**
   * In every run, the starts of every job are what a failing job's backoff allows: each waits for the reschedule before
   * it.
   */
  lemma StartsFollowBackoff(now: int, events: seq<Event>, workers: Workers, inMemory: bool, b: Backoff, id: Id)
    requires AllUse(workers, b)
    ensures var s := Run(Initial(now), events, workers, inMemory);
      if id in s.created then Failing(b, s.created[id], Starts(s.log, id)) else Starts(s.log, id) == []
  {
    RunKeepsTries(Initial(now), events, workers, inMemory, b);
    assert ValidTries(Run(Initial(now), events, workers, inMemory), b, id);
  }

  /** With the default backoff no job is ever started more than 12 times, by however many workers. */
  lemma AtMostTwelveStarts(now: int, events: seq<Event>, workers: Workers, inMemory: bool, id: Id)
    requires AllUse(workers, JobBackoff.DEFAULTS)
    ensures |Starts(Run(Initial(now), events, workers, inMemory).log, id)| <= 12
  {
    StartsFollowBackoff(now, events, workers, inMemory, JobBackoff.DEFAULTS, id);
    var s := Run(Initial(now), events, workers, inMemory);
    if id in s.created { DefaultsAtMostTwelve(s.created[id], Starts(s.log, id)); }
  }

  /** And with any growing backoff no job is started for ever. */
  lemma NoEndlessRetries(now: int, events: seq<Event>, workers: Workers, inMemory: bool, b: Backoff, id: Id)
    requires AllUse(workers, b) && b.firstWait > 0.0 && b.factor > 1.0 && b.timeout >= 0.0
    ensures |Starts(Run(Initial(now), events, workers, inMemory).log, id)| <= MaxExecutions(b)
  {
    StartsFollowBackoff(now, events, workers, inMemory, b, id);
    var s := Run(Initial(now), events, workers, inMemory);
    var starts := Starts(s.log, id);
    var n := MaxExecutions(b);
    if |starts| > n {
      FailingPrefix(b, s.created[id], starts, n);
      AlwaysEnds(b, s.created[id], starts[..n]);
    }
  }
}
