/** Background jobs, the in-memory store that keeps them, and one execution of a job with its bookkeeping. */
module JobStore {
  import opened Common
  import opened JobBackoff
  import opened WorkerPartition

  type Id = nat

  /** `nextTryTime` is None when it is an invalid date. Applications are only compared. */
  datatype Job = Job(
    id: Id, application: Option<nat>, jobName: Text, priority: int, creationTime: int,
    tryCount: nat, nextTryTime: Option<int>, lastTryTime: Option<int>, isAbandoned: bool, completionTime: Option<int>)

  /** When to try again, from the number of tries, the time of the last one and the creation time. */
  type RetryRule = (nat, int, int) -> NextTry

  datatype WorkerOptions = WorkerOptions(
    application: Option<nat>, filter: NameFilter, maxFetch: nat, maxParallel: nat, keepSuccessful: bool,
      retryRule: RetryRule)

  /** The worker's own rule: `JobBackoff` says how it behaves. */
  function ExponentialBackoff(backoff: Backoff): RetryRule {
    (tryCount: nat, lastTryTime: int, creationTime: int) =>
      if tryCount == 0 then Abandon else CalculateNextTryTime(backoff, tryCount, lastTryTime, creationTime)
  }

  predicate Live(j: Job) { !j.isAbandoned && j.completionTime.None? }

  predicate IsWaiting(j: Job, application: Option<nat>, filter: NameFilter, now: int) {
    && j.application == application
    && Live(j) && j.nextTryTime.Some? && j.nextTryTime.value <= now
    && IsMatch(filter, j.jobName)
  }

  /** The worker's own check, made again on the job as found after claiming it. */
  predicate IsJobEligible(j: Option<Job>, o: WorkerOptions, now: int) {
    j.Some? && IsWaiting(j.value, o.application, o.filter, now)
  }

  // ---------------------------------------------------------------- one execution

  /** How executing a job ends: well, with a job execution exception, or with any other error. */
  datatype Outcome = Success | Failure | Fault

  function Started(j: Job, now: int): Job { j.(tryCount := j.tryCount + 1, lastTryTime := Some(now)) }

  function Rescheduled(j: Job, o: WorkerOptions, now: int): Job {
    match o.retryRule(j.tryCount, if j.lastTryTime.Some? then j.lastTryTime.value else now, j.creationTime)
    case At(time) => j.(nextTryTime := Some(time))
    case Never => j.(nextTryTime := None)
    case Abandon => j.(isAbandoned := true)
  }

  /** The job after its execution; None when it is deleted. */
  function AfterOutcome(j: Job, outcome: Outcome, o: WorkerOptions, now: int): Option<Job>
  {
    match outcome
    case Success => if o.keepSuccessful then Some(j.(completionTime := Some(now))) else None
    case Failure => Some(Rescheduled(j, o, now))
    case Fault => Some(j.(isAbandoned := true))
  }

  type Rows = map<Id, Job>

  /**
   * What the store keeps of it. The in-memory store drops abandoned jobs; an update never brings back a deleted job.
   */
  function Stored(rows: Rows, id: Id, after: Option<Job>, inMemory: bool): Rows {
    if after.None? || (inMemory && after.value.isAbandoned) then rows - {id}
    else if id in rows then rows[id := after.value]
    else rows
  }

  class BackgroundJobInfo {
    const id: Id
    const application: Option<nat>
    const jobName: Text
    const priority: int
    const creationTime: int
    var tryCount: nat
    var nextTryTime: Option<int>
    var lastTryTime: Option<int>
    var isAbandoned: bool
    var completionTime: Option<int>

    constructor (id: Id, application: Option<nat>, jobName: Text, priority: int, creationTime: int, nextTryTime: int)
      ensures View() == Job(id, application, jobName, priority, creationTime, 0, Some(nextTryTime), None, false, None)
    {
      this.id, this.application, this.jobName, this.priority, this.creationTime :=
        id, application, jobName, priority, creationTime;
      this.nextTryTime := Some(nextTryTime);
      tryCount, lastTryTime, isAbandoned, completionTime := 0, None, false, None;
    }

    function View(): Job
      reads this
    {
      Job(id, application, jobName, priority, creationTime, tryCount, nextTryTime, lastTryTime, isAbandoned,
        completionTime)
    }

    method Start(now: int)
      modifies this
      ensures View() == Started(old(View()), now)
    {
      tryCount := tryCount + 1;
      lastTryTime := Some(now);
    }

    method Complete(now: int)
      modifies this
      ensures View() == old(View()).(completionTime := Some(now))
    {
      completionTime := Some(now);
    }

    method Retry(o: WorkerOptions, now: int)
      modifies this
      ensures View() == Rescheduled(old(View()), o, now)
    {
      var next := o.retryRule(tryCount, if lastTryTime.Some? then lastTryTime.value else now, creationTime);
      match next {
        case At(time) => nextTryTime := Some(time);
        case Never => nextTryTime := None;
        case Abandon => isAbandoned := true;
      }
    }

    method Abandon()
      modifies this
      ensures View() == old(View()).(isAbandoned := true)
    {
      isAbandoned := true;
    }
  }

  class InMemoryBackgroundJobStore {
    var jobs: map<Id, BackgroundJobInfo>

    ghost predicate Valid()
      reads this, jobs.Values
    {
      forall id :: id in jobs ==> jobs[id].id == id
    }

    function Contents(): Rows
      reads this, jobs.Values
    {
      map id | id in jobs :: jobs[id].View()
    }

    constructor ()
      ensures Valid() && Contents() == map[]
    {
      jobs := map[];
    }

    method Find(id: Id) returns (found: Option<BackgroundJobInfo>)
      ensures found == if id in jobs then Some(jobs[id]) else None
    {
      found := if id in jobs then Some(jobs[id]) else None;
    }

    method Insert(job: BackgroundJobInfo)
      requires Valid()
      modifies this
      ensures Valid() && Contents() == old(Contents())[job.id := job.View()] && jobs == old(jobs)[job.id := job]
    {
      jobs := jobs[job.id := job];
    }

    method Delete(id: Id)
      requires Valid()
      modifies this
      ensures Valid() && Contents() == old(Contents()) - {id} && jobs == old(jobs) - {id}
    {
      jobs := jobs - {id};
    }

    /** Other updates are in place already. */
    method Update(job: BackgroundJobInfo)
      requires Valid()
      modifies this
      ensures Valid() && Contents() == if job.isAbandoned then old(Contents()) - {job.id} else old(Contents())
    {
      if job.isAbandoned { Delete(job.id); }
    }
  }

  // ---------------------------------------------------------------- which jobs are waiting

  /** Priority descending, then tries ascending, then due time ascending; invalid dates never get here. */
  function Urgency(a: Job, b: Job): int {
    if a.priority != b.priority then b.priority - a.priority
    else if a.tryCount != b.tryCount then a.tryCount - b.tryCount
    else (if a.nextTryTime.Some? then a.nextTryTime.value else 0) - (if b.nextTryTime.Some? then b.nextTryTime.value
      else 0)
  }

  function ByUrgency(): (Job, Job) -> int { (a: Job, b: Job) => Urgency(a, b) }

  function Waiting(application: Option<nat>, filter: NameFilter, now: int): Job -> bool {
    (j: Job) => IsWaiting(j, application, filter, now)
  }

  /** What `getWaitingJobs` answers for the stored jobs in the order they were inserted. */
  function WaitingJobs(stored: seq<Job>, application: Option<nat>, maxResultCount: nat, filter: NameFilter,
      now: int): seq<Job> {
    FirstN(StableSort(Filter(stored, Waiting(application, filter, now)), ByUrgency()), maxResultCount)
  }

  /** Only waiting jobs are answered, as many as asked for if there are enough. */
  lemma WaitingJobsWait(stored: seq<Job>, application: Option<nat>, maxResultCount: nat, filter: NameFilter, now: int)
    ensures var answer := WaitingJobs(stored, application, maxResultCount, filter, now);
      && |answer| == Min(maxResultCount, |Filter(stored, Waiting(application, filter, now))|)
      && forall j :: j in answer ==> j in stored && IsWaiting(j, application, filter, now)
  {
    var waiting := Filter(stored, Waiting(application, filter, now));
    SortMembers(waiting, ByUrgency());
    FilterMembers(stored, Waiting(application, filter, now));
    forall j | j in WaitingJobs(stored, application, maxResultCount, filter, now) ensures j in waiting {
      assert j in multiset(StableSort(waiting, ByUrgency()));
    }
  }

  /** No waiting job is passed over for a less urgent one. */
  lemma MostUrgentFirst(stored: seq<Job>, application: Option<nat>, maxResultCount: nat, filter: NameFilter, now: int,
      left: Job, taken: Job)
    requires left in stored && IsWaiting(left, application, filter, now)
    requires left !in WaitingJobs(stored, application, maxResultCount, filter, now)
    requires taken in WaitingJobs(stored, application, maxResultCount, filter, now)
    ensures Urgency(taken, left) <= 0
  {
    FilterMembers(stored, Waiting(application, filter, now));
    UrgencyLawful();
    FirstAreBest(Filter(stored, Waiting(application, filter, now)), ByUrgency(), maxResultCount, left, taken);
  }

  lemma UrgencyLawful()
    ensures TotalPreorder(ByUrgency())
  {
  }

  // ---------------------------------------------------------------- executing

  /**
   * `handleJobSuccess`, `handleJobFailure` or `handleJobError` on the fields of the job; true if it is to be deleted.
   */
  method Settle(job: BackgroundJobInfo, outcome: Outcome, o: WorkerOptions, now: int) returns (delete: bool)
    modifies job
    ensures AfterOutcome(old(job.View()), outcome, o, now) == if delete then None else Some(job.View())
  {
    delete := false;
    match outcome {
      case Success => if o.keepSuccessful { job.Complete(now); } else { delete := true; }
      case Failure => job.Retry(o, now);
      case Fault => job.Abandon();
    }
  }

  /** Starts and settles a stored job: its own row follows its fields, and no other row changes. */
  method RunStored(store: InMemoryBackgroundJobStore, job: BackgroundJobInfo, o: WorkerOptions, startedAt: int,
      outcome: Outcome, endedAt: int) returns (delete: bool)
    requires store.Valid() && job.id in store.jobs && store.jobs[job.id] == job
    modifies job
    ensures store.Valid() && store.Contents() == old(store.Contents())[job.id := job.View()]
    ensures AfterOutcome(Started(old(job.View()), startedAt), outcome, o, endedAt) == if delete then None
      else Some(job.View())
  {
    job.Start(startedAt);
    delete := Settle(job, outcome, o, endedAt);
  }

  /** One execution of a stored job: counts the try, runs it with the given outcome, and keeps the books. */
  method TryExecuteJob(store: InMemoryBackgroundJobStore, job: BackgroundJobInfo, o: WorkerOptions, startedAt: int,
      outcome: Outcome, endedAt: int)
    requires store.Valid() && job.id in store.jobs && store.jobs[job.id] == job
    modifies store, job
    ensures store.Valid()
    ensures store.Contents() == Stored(old(store.Contents()), job.id,
      AfterOutcome(Started(old(job.View()), startedAt), outcome, o, endedAt), true)
  {
    ghost var rows := store.Contents();
    var delete := RunStored(store, job, o, startedAt, outcome, endedAt);
    if delete {
      store.Delete(job.id);
      assert store.Contents() == rows - {job.id};
    } else {
      store.Update(job);
      assert store.Contents() == Stored(rows, job.id, Some(job.View()), true);
    }
  }
}
