/**
 * Many workers executing background jobs in parallel. Each poll cycle fetches waiting jobs, claims each with a lock of
 * its own, looks the job up again, and executes it if it is still eligible. Steps of different workers interleave
 * freely.
 */
module JobWorkers {
  import opened Common
  import opened JobStore

  type WorkerId = nat

  /** A claimed job: locked; looked up again; executing, with the worker's copy of the job; done. */
  datatype Phase = Claimed | Found(found: Option<Job>) | Executing(job: Job) | Done

  /** A poll cycle: the fetched jobs still to be looked at, and how many were claimed. */
  datatype Cycle = Cycle(waiting: seq<Id>, claimed: nat)

  datatype Entry =
    | JobStarted(id: Id, at: int)
    | JobSucceeded(id: Id)
    | JobRescheduled(id: Id, next: Option<int>)
    | JobAbandoned(id: Id)

  datatype Task = Task(worker: WorkerId, id: Id)

  /** `created` remembers the creation time of every job ever inserted. */
  datatype State = State(
    now: int, rows: Rows, created: map<Id, int>, locks: map<Id, WorkerId>, tasks: map<Task, Phase>,
      cycles: map<WorkerId, Cycle>, log: seq<Entry>)

  datatype Event =
    | Tick(to: int)
    | Insert(job: Job)
    | Fetch(worker: WorkerId, waiting: seq<Id>)
    | Claim(worker: WorkerId)
    | LookUp(task: Task)
    | Check(task: Task)
    | Finish(task: Task, outcome: Outcome)
    | Release(task: Task)
    | EndCycle(worker: WorkerId)
    | CleanUp(id: Id)

  /** What the log says about one job: whether it is running, is over, and since when it is due. */
  datatype History = History(running: bool, over: bool, due: Option<Option<int>>)

  function HistoryOf(log: seq<Entry>, id: Id): History {
    if log == [] then History(false, false, None)
    else
      var before := HistoryOf(log[..|log| - 1], id);
      var e := log[|log| - 1];
      if e.id == id then After(before, e) else before
  }

  function After(h: History, e: Entry): History {
    match e
    case JobStarted(_, _) => h.(running := true)
    case JobSucceeded(_) => h.(running := false, over := true)
    case JobRescheduled(_, next) => h.(running := false, due := Some(next))
    case JobAbandoned(_) => h.(running := false, over := true)
  }

  lemma HistorySnoc(log: seq<Entry>, e: Entry, id: Id)
    ensures HistoryOf(log + [e], id) == if e.id == id then After(HistoryOf(log, id), e) else HistoryOf(log, id)
  {
  }

  /** A job as the manager enqueues it, under an id never used before. */
  predicate IsNew(job: Job, now: int) {
    Live(job) && job.tryCount == 0 && 0 <= job.creationTime <= now
  }

  function FetchedAll(s: State, o: WorkerOptions, waiting: seq<Id>): bool {
    && |waiting| <= o.maxFetch
    && forall i :: 0 <= i < |waiting| ==>
      waiting[i] in s.rows && IsWaiting(s.rows[waiting[i]], o.application, o.filter, s.now)
  }

  function EntryFor(id: Id, outcome: Outcome, after: Option<Job>): Entry {
    if outcome.Success? then JobSucceeded(id)
    else if after.None? || after.value.isAbandoned then JobAbandoned(id)
    else JobRescheduled(id, after.value.nextTryTime)
  }

  /** The next fetched job is claimed if it is free and the worker may claim one more. */
  function AfterClaim(s: State, w: WorkerId, o: WorkerOptions): State {
    if w !in s.cycles || s.cycles[w].waiting == [] then s
    else
      var Cycle(waiting, claimed) := s.cycles[w];
      var id := waiting[0];
      if claimed >= o.maxParallel then s.(cycles := s.cycles[w := Cycle([], claimed)])
      else if id in s.locks then s.(cycles := s.cycles[w := Cycle(waiting[1..], claimed)])
      else s.(cycles := s.cycles[w := Cycle(waiting[1..], claimed + 1)], locks := s.locks[id := w], tasks :=
        s.tasks[Task(w, id) := Claimed])
  }

  /**
   * An eligible job starts; otherwise the claim is done with. The in-memory store shares its job objects with the
   * worker.
   */
  function AfterCheck(s: State, t: Task, o: WorkerOptions, inMemory: bool): State {
    if t !in s.tasks || !s.tasks[t].Found? then s
    else if !IsJobEligible(s.tasks[t].found, o, s.now) then s.(tasks := s.tasks[t := Done])
    else
      var job := Started(s.tasks[t].found.value, s.now);
      s.(tasks := s.tasks[t := Executing(job)],
         rows := if inMemory && t.id in s.rows then s.rows[t.id := job] else s.rows,
         log := s.log + [JobStarted(t.id, s.now)])
  }

  function AfterFinish(s: State, t: Task, outcome: Outcome, o: WorkerOptions, inMemory: bool): State {
    if t !in s.tasks || !s.tasks[t].Executing? then s
    else
      var after := AfterOutcome(s.tasks[t].job, outcome, o, s.now);
      s.(tasks := s.tasks[t := Done],
         rows := Stored(s.rows, t.id, after, inMemory),
         log := s.log + [EntryFor(t.id, outcome, after)])
  }

  function AfterRelease(s: State, t: Task): State {
    if t !in s.tasks || s.tasks[t].Executing? then s else s.(tasks := s.tasks - {t}, locks := s.locks - {t.id})
  }

  /** `Workers(w)` are the options of worker `w`. Events that cannot happen in a state leave it as it is. */
  type Workers = WorkerId -> WorkerOptions

  function Step(s: State, e: Event, workers: Workers, inMemory: bool): State {
    match e
    case Tick(to) => if to < s.now then s else s.(now := to)
    case Insert(job) =>
      if job.id in s.created || !IsNew(job, s.now) then s
      else s.(rows := s.rows[job.id := job], created := s.created[job.id := job.creationTime])
    case Fetch(w, waiting) =>
      if w in s.cycles || !FetchedAll(s, workers(w), waiting) then s else s.(cycles := s.cycles[w := Cycle(waiting, 0)])
    case Claim(w) => AfterClaim(s, w, workers(w))
    case LookUp(t) =>
      if t !in s.tasks || !s.tasks[t].Claimed? then s
      else s.(tasks := s.tasks[t := Found(if t.id in s.rows then Some(s.rows[t.id]) else None)])
    case Check(t) => AfterCheck(s, t, workers(t.worker), inMemory)
    case Finish(t, outcome) => AfterFinish(s, t, outcome, workers(t.worker), inMemory)
    case Release(t) => AfterRelease(s, t)
    case EndCycle(w) =>
      if exists t :: t in s.tasks && t.worker == w then s else s.(cycles := s.cycles - {w})
    case CleanUp(id) =>
      if id in s.rows && s.rows[id].completionTime.Some? then s.(rows := s.rows - {id}) else s
  }

  function Run(s: State, events: seq<Event>, workers: Workers, inMemory: bool): State
    decreases |events|
  {
    if events == [] then s else Run(Step(s, events[0], workers, inMemory), events[1..], workers, inMemory)
  }

  lemma {:induction false} RunConcat(p: State, a: seq<Event>, b: seq<Event>, workers: Workers, inMemory: bool)
    ensures Run(p, a + b, workers, inMemory) == Run(Run(p, a, workers, inMemory), b, workers, inMemory)
    decreases |a|
  {
    if a == [] {
      assert a + b == b;
    } else {
      assert (a + b)[0] == a[0] && (a + b)[1..] == a[1..] + b;
      RunConcat(Step(p, a[0], workers, inMemory), a[1..], b, workers, inMemory);
    }
  }

  lemma RunOne(p: State, e: Event, workers: Workers, inMemory: bool)
    ensures Run(p, [e], workers, inMemory) == Step(p, e, workers, inMemory)
  {
    assert Run(p, [e], workers, inMemory) == Run(Step(p, e, workers, inMemory), [e][1..], workers, inMemory);
  }

  lemma RunSnoc(p: State, a: seq<Event>, e: Event, workers: Workers, inMemory: bool)
    ensures Run(p, a + [e], workers, inMemory) == Step(Run(p, a, workers, inMemory), e, workers, inMemory)
  {
    RunConcat(p, a, [e], workers, inMemory);
    RunOne(Run(p, a, workers, inMemory), e, workers, inMemory);
  }

  lemma FourSteps(p: State, e: Event, f: Event, g: Event, h: Event, workers: Workers, inMemory: bool)
    ensures Run(p, [e] + [f] + [g] + [h], workers, inMemory)
      == Step(Step(Step(Step(p, e, workers, inMemory), f, workers, inMemory), g, workers, inMemory), h, workers,
        inMemory)
  {
    RunOne(p, e, workers, inMemory);
    RunSnoc(p, [e], f, workers, inMemory);
    RunSnoc(p, [e] + [f], g, workers, inMemory);
    RunSnoc(p, [e] + [f] + [g], h, workers, inMemory);
  }

  lemma ThreeSteps(p: State, e: Event, f: Event, g: Event, workers: Workers, inMemory: bool)
    ensures Run(p, [e] + [f] + [g], workers, inMemory)
      == Step(Step(Step(p, e, workers, inMemory), f, workers, inMemory), g, workers, inMemory)
  {
    RunOne(p, e, workers, inMemory);
    RunSnoc(p, [e], f, workers, inMemory);
    RunSnoc(p, [e] + [f], g, workers, inMemory);
  }

  function Initial(now: int): State { State(now, map[], map[], map[], map[], map[], []) }

  // ---------------------------------------------------------------- the invariant

  /** A task works on a job that is still as it was found, and the log agrees. */
  ghost predicate ValidTask(s: State, t: Task) {
    && t in s.tasks && t.id in s.locks && s.locks[t.id] == t.worker
    && match s.tasks[t]
       case Claimed => true
       case Found(job) => job.Some? && Live(job.value) ==> t.id in s.rows && s.rows[t.id] == job.value
       case Executing(job) => Live(job) && t.id in s.rows && Live(s.rows[t.id]) &&
         s.rows[t.id].nextTryTime == job.nextTryTime
       case Done => true
  }

  predicate IsExecuting(s: State, id: Id) {
    id in s.locks && var t := Task(s.locks[id], id); t in s.tasks && s.tasks[t].Executing?
  }

  /** The store agrees with the log. */
  ghost predicate ValidJob(s: State, id: Id) {
    var h := HistoryOf(s.log, id);
    && (id in s.rows ==> id in s.created)
    && (id !in s.created ==> h == History(false, false, None))
    && (h.over && id in s.rows ==> !Live(s.rows[id]))
    && (h.due.Some? && id in s.rows ==> s.rows[id].nextTryTime == h.due.value)
    && (h.running <==> IsExecuting(s, id))
  }

  ghost predicate Inv(s: State) {
    && (forall t :: t in s.tasks ==> ValidTask(s, t))
    && (forall id :: ValidJob(s, id))
  }

  lemma InsertKeepsInv(s: State, job: Job, workers: Workers, inMemory: bool)
    requires Inv(s)
    ensures Inv(Step(s, Insert(job), workers, inMemory))
  {
    var s' := Step(s, Insert(job), workers, inMemory);
    forall t | t in s'.tasks ensures ValidTask(s', t) { assert ValidTask(s, t) && ValidJob(s, t.id); }
    forall id ensures ValidJob(s', id) { assert ValidJob(s, id); }
  }

  /** The clock and the cycles do not matter to the invariant. */
  lemma OnlyTimeAndCycles(s: State, s': State)
    requires Inv(s) && s'.(now := s.now, cycles := s.cycles) == s
    ensures Inv(s')
  {
    forall t | t in s'.tasks ensures ValidTask(s', t) { assert ValidTask(s, t); }
    forall id ensures ValidJob(s', id) { assert ValidJob(s, id); }
  }

  lemma LockedKeepsInv(s: State, w: WorkerId, id: Id)
    requires Inv(s) && id !in s.locks
    ensures Inv(s.(locks := s.locks[id := w], tasks := s.tasks[Task(w, id) := Claimed]))
  {
    var s' := s.(locks := s.locks[id := w], tasks := s.tasks[Task(w, id) := Claimed]);
    forall t | t in s'.tasks ensures ValidTask(s', t) { if t in s.tasks { assert ValidTask(s, t); } }
    forall id ensures ValidJob(s', id) { assert ValidJob(s, id); }
  }

  lemma ClaimKeepsInv(s: State, w: WorkerId, o: WorkerOptions)
    requires Inv(s)
    ensures Inv(AfterClaim(s, w, o))
  {
    var s' := AfterClaim(s, w, o);
    if w in s.cycles && s.cycles[w].waiting != [] && s'.locks != s.locks {
      var id := s.cycles[w].waiting[0];
      LockedKeepsInv(s, w, id);
      OnlyTimeAndCycles(s.(locks := s.locks[id := w], tasks := s.tasks[Task(w, id) := Claimed]), s');
    } else {
      OnlyTimeAndCycles(s, s');
    }
  }

  /** Moving a task between phases in which it does not execute. */
  lemma PhaseKeepsInv(s: State, t: Task, p: Phase)
    requires Inv(s) && t in s.tasks && !s.tasks[t].Executing?
    requires p.Done? || p == Found(if t.id in s.rows then Some(s.rows[t.id]) else None)
    ensures Inv(s.(tasks := s.tasks[t := p]))
  {
    var s' := s.(tasks := s.tasks[t := p]);
    forall u | u in s'.tasks ensures ValidTask(s', u) { assert ValidTask(s, u); }
    forall id ensures ValidJob(s', id) { assert ValidJob(s, id); }
  }

  /** The recheck is worth something: under the lock an eligible job is still the stored one. */
  lemma EligibleJob(s: State, t: Task, o: WorkerOptions)
    requires Inv(s) && t in s.tasks && s.tasks[t].Found? && IsJobEligible(s.tasks[t].found, o, s.now)
    ensures var j := s.tasks[t].found.value;
      && Live(j) && j.nextTryTime.Some? && j.nextTryTime.value <= s.now
      && t.id in s.rows && t.id in s.created && s.rows[t.id] == j
      && t.id in s.locks && s.locks[t.id] == t.worker
  {
    assert ValidTask(s, t) && ValidJob(s, t.id);
  }

  lemma StartKeepsInv(s: State, t: Task, j: Job, inMemory: bool)
    requires Inv(s) && t in s.tasks && s.tasks[t] == Found(Some(j)) && Live(j) && t.id in s.rows && s.rows[t.id] == j
    ensures var job := Started(j, s.now);
      Inv(s.(tasks := s.tasks[t := Executing(job)], rows := if inMemory then s.rows[t.id := job] else s.rows, log :=
        s.log + [JobStarted(t.id, s.now)]))
  {
    var job := Started(j, s.now);
    var s' := s.(tasks := s.tasks[t := Executing(job)], rows := if inMemory then s.rows[t.id := job] else s.rows, log :=
      s.log + [JobStarted(t.id, s.now)]);
    assert ValidTask(s, t);
    forall u | u in s'.tasks ensures ValidTask(s', u) { assert ValidTask(s, u); }
    forall id ensures ValidJob(s', id) {
      assert ValidJob(s, id);
      HistorySnoc(s.log, JobStarted(t.id, s.now), id);
    }
  }

  lemma CheckKeepsInv(s: State, t: Task, o: WorkerOptions, inMemory: bool)
    requires Inv(s)
    ensures Inv(AfterCheck(s, t, o, inMemory))
  {
    if t in s.tasks && s.tasks[t].Found? {
      if IsJobEligible(s.tasks[t].found, o, s.now) {
        EligibleJob(s, t, o);
        StartKeepsInv(s, t, s.tasks[t].found.value, inMemory);
      } else {
        PhaseKeepsInv(s, t, Done);
      }
    }
  }

  lemma FinishKeepsInv(s: State, t: Task, outcome: Outcome, o: WorkerOptions, inMemory: bool)
    requires Inv(s)
    ensures Inv(AfterFinish(s, t, outcome, o, inMemory))
  {
    var s' := AfterFinish(s, t, outcome, o, inMemory);
    if t in s.tasks && s.tasks[t].Executing? {
      assert ValidTask(s, t);
      var after := AfterOutcome(s.tasks[t].job, outcome, o, s.now);
      forall u | u in s'.tasks ensures ValidTask(s', u) { assert ValidTask(s, u); }
      forall id ensures ValidJob(s', id) {
        assert ValidJob(s, id);
        HistorySnoc(s.log, EntryFor(t.id, outcome, after), id);
      }
    }
  }

  lemma ReleaseKeepsInv(s: State, t: Task)
    requires Inv(s)
    ensures Inv(AfterRelease(s, t))
  {
    var s' := AfterRelease(s, t);
    if t in s.tasks { assert ValidTask(s, t); }
    forall u | u in s'.tasks ensures ValidTask(s', u) { assert ValidTask(s, u); }
    forall id ensures ValidJob(s', id) { assert ValidJob(s, id); }
  }

  lemma CleanUpKeepsInv(s: State, id: Id, workers: Workers, inMemory: bool)
    requires Inv(s)
    ensures Inv(Step(s, CleanUp(id), workers, inMemory))
  {
    var s' := Step(s, CleanUp(id), workers, inMemory);
    forall t | t in s'.tasks ensures ValidTask(s', t) { assert ValidTask(s, t); }
    forall id ensures ValidJob(s', id) { assert ValidJob(s, id); }
  }

  lemma StepKeepsInv(s: State, e: Event, workers: Workers, inMemory: bool)
    requires Inv(s)
    ensures Inv(Step(s, e, workers, inMemory))
  {
    match e {
      case Insert(job) => InsertKeepsInv(s, job, workers, inMemory);
      case Claim(w) => ClaimKeepsInv(s, w, workers(w));
      case Check(t) => CheckKeepsInv(s, t, workers(t.worker), inMemory);
      case Finish(t, outcome) => FinishKeepsInv(s, t, outcome, workers(t.worker), inMemory);
      case LookUp(t) => if t in s.tasks &&
        s.tasks[t].Claimed? { PhaseKeepsInv(s, t, Found(if t.id in s.rows then Some(s.rows[t.id]) else None)); }
      case Release(t) => ReleaseKeepsInv(s, t);
      case CleanUp(id) => CleanUpKeepsInv(s, id, workers, inMemory);
      case _ => OnlyTimeAndCycles(s, Step(s, e, workers, inMemory));
    }
  }

  lemma {:induction false} RunKeepsInv(s: State, events: seq<Event>, workers: Workers, inMemory: bool)
    requires Inv(s)
    ensures Inv(Run(s, events, workers, inMemory))
    decreases |events|
  {
    if events != [] {
      StepKeepsInv(s, events[0], workers, inMemory);
      RunKeepsInv(Step(s, events[0], workers, inMemory), events[1..], workers, inMemory);
    }
  }

  // ---------------------------------------------------------------- what holds in every run

  /** No two workers ever execute the same job at the same time. */
  lemma NeverTwiceAtOnce(now: int, events: seq<Event>, workers: Workers, inMemory: bool, t: Task, u: Task)
    requires var s := Run(Initial(now), events, workers, inMemory);
      t in s.tasks && u in s.tasks && s.tasks[t].Executing? && s.tasks[u].Executing? && t.id == u.id
    ensures t == u
  {
    RunKeepsInv(Initial(now), events, workers, inMemory);
    var s := Run(Initial(now), events, workers, inMemory);
    assert ValidTask(s, t) && ValidTask(s, u);
  }

  /** A job may start if it is not running, has neither succeeded nor been abandoned, and its last reschedule is due. */
  predicate MayStart(h: History, at: int) {
    !h.running && !h.over && (h.due.Some? ==> h.due.value.Some? && h.due.value.value <= at)
  }

  /** Jobs start only when they may and end only when they run. */
  predicate LegalEntry(h: History, e: Entry) { if e.JobStarted? then MayStart(h, e.at) else h.running }

  /** Every entry of the log was allowed by what the log said before it. */
  ghost predicate LegalLog(log: seq<Entry>) {
    log == [] || (var n := |log| - 1; LegalLog(log[..n]) && LegalEntry(HistoryOf(log[..n], log[n].id), log[n]))
  }

  lemma LegalSnoc(log: seq<Entry>, e: Entry)
    ensures LegalLog(log + [e]) <==> LegalLog(log) && LegalEntry(HistoryOf(log, e.id), e)
  {
  }

  lemma StepKeepsLog(s: State, e: Event, workers: Workers, inMemory: bool)
    requires Inv(s) && LegalLog(s.log)
    ensures LegalLog(Step(s, e, workers, inMemory).log)
  {
    match e {
      case Check(t) => CheckKeepsLog(s, t, workers(t.worker), inMemory);
      case Finish(t, outcome) => FinishKeepsLog(s, t, outcome, workers(t.worker), inMemory);
      case _ => assert Step(s, e, workers, inMemory).log == s.log;
    }
  }

  lemma CheckKeepsLog(s: State, t: Task, o: WorkerOptions, inMemory: bool)
    requires Inv(s) && LegalLog(s.log)
    ensures LegalLog(AfterCheck(s, t, o, inMemory).log)
  {
    if t in s.tasks && s.tasks[t].Found? && IsJobEligible(s.tasks[t].found, o, s.now) {
      EligibleJob(s, t, o);
      assert ValidTask(s, t) && ValidJob(s, t.id);
      LegalSnoc(s.log, JobStarted(t.id, s.now));
    }
  }

  lemma FinishKeepsLog(s: State, t: Task, outcome: Outcome, o: WorkerOptions, inMemory: bool)
    requires Inv(s) && LegalLog(s.log)
    ensures LegalLog(AfterFinish(s, t, outcome, o, inMemory).log)
  {
    if t in s.tasks && s.tasks[t].Executing? {
      assert ValidTask(s, t) && ValidJob(s, t.id);
      LegalSnoc(s.log, EntryFor(t.id, outcome, AfterOutcome(s.tasks[t].job, outcome, o, s.now)));
    }
  }

  lemma {:induction false} RunKeepsLog(s: State, events: seq<Event>, workers: Workers, inMemory: bool)
    requires Inv(s) && LegalLog(s.log)
    ensures LegalLog(Run(s, events, workers, inMemory).log)
    decreases |events|
  {
    if events != [] {
      StepKeepsInv(s, events[0], workers, inMemory);
      StepKeepsLog(s, events[0], workers, inMemory);
      RunKeepsLog(Step(s, events[0], workers, inMemory), events[1..], workers, inMemory);
    }
  }

  lemma {:induction false} EndedWhenOver(log: seq<Entry>, i: nat)
    requires i < |log| && (log[i].JobSucceeded? || log[i].JobAbandoned?)
    requires forall k :: i < k < |log| ==> log[k].id != log[i].id
    ensures HistoryOf(log, log[i].id).over && !HistoryOf(log, log[i].id).running
  {
    if i < |log| - 1 { EndedWhenOver(log[..|log| - 1], i); }
  }

  lemma {:induction false} LegalPrefix(log: seq<Entry>, n: nat)
    requires LegalLog(log) && n < |log|
    ensures LegalEntry(HistoryOf(log[..n], log[n].id), log[n])
  {
    if n < |log| - 1 {
      LegalPrefix(log[..|log| - 1], n);
      assert log[..|log| - 1][..n] == log[..n];
    }
  }

  lemma {:induction false} NothingAfterOver(log: seq<Entry>, i: nat, j: nat)
    requires LegalLog(log) && i < j < |log| && (log[i].JobSucceeded? || log[i].JobAbandoned?)
    ensures log[j].id != log[i].id
    decreases j
  {
    if log[j].id == log[i].id {
      forall k | i < k < j ensures log[k].id != log[i].id { NothingAfterOver(log, i, k); }
      EndedWhenOver(log[..j], i);
      LegalPrefix(log, j);
      assert false;
    }
  }

  /**
   * Once a job has succeeded or been abandoned nothing more happens to it, however stale the snapshots of the workers
   * are.
   */
  lemma OverIsNeverStarted(now: int, events: seq<Event>, workers: Workers, inMemory: bool, i: nat)
    requires var log := Run(Initial(now), events, workers, inMemory).log;
      i < |log| && (log[i].JobSucceeded? || log[i].JobAbandoned?)
    ensures var log := Run(Initial(now), events, workers, inMemory).log;
      forall j :: i < j < |log| ==> log[j].id != log[i].id
  {
    RunKeepsLog(Initial(now), events, workers, inMemory);
    var log := Run(Initial(now), events, workers, inMemory).log;
    forall j | i < j < |log| ensures log[j].id != log[i].id { NothingAfterOver(log, i, j); }
  }

  lemma {:induction false} DueIsLatest(log: seq<Entry>, i: nat)
    requires i < |log| && log[i].JobRescheduled?
    requires forall k :: i < k < |log| && log[k].id == log[i].id ==> !log[k].JobRescheduled?
    ensures HistoryOf(log, log[i].id).due == Some(log[i].next)
  {
    if i < |log| - 1 { DueIsLatest(log[..|log| - 1], i); }
  }

  /** A rescheduled job is not started again before the time it was rescheduled to; never if that is no valid date. */
  lemma NotBeforeNextTry(now: int, events: seq<Event>, workers: Workers, inMemory: bool, i: nat, j: nat)
    requires var log := Run(Initial(now), events, workers, inMemory).log;
      && i < j < |log| && log[i].JobRescheduled? && log[j].JobStarted? && log[j].id == log[i].id
      && forall k :: i < k < j && log[k].id == log[i].id ==> !log[k].JobRescheduled?
    ensures var log := Run(Initial(now), events, workers, inMemory).log;
      log[i].next.Some? && log[i].next.value <= log[j].at
  {
    RunKeepsLog(Initial(now), events, workers, inMemory);
    var log := Run(Initial(now), events, workers, inMemory).log;
    LegalPrefix(log, j);
    DueIsLatest(log[..j], i);
  }

  lemma {:induction false} RunningUntilEnded(log: seq<Entry>, i: nat)
    requires i < |log| && log[i].JobStarted?
    requires forall k :: i < k < |log| ==> log[k].id != log[i].id
    ensures HistoryOf(log, log[i].id).running
  {
    if i < |log| - 1 { RunningUntilEnded(log[..|log| - 1], i); }
  }

  /** Between two starts of a job its first execution has ended: executions of one job never overlap. */
  lemma ExecutionsDoNotOverlap(now: int, events: seq<Event>, workers: Workers, inMemory: bool, i: nat, j: nat)
    requires var log := Run(Initial(now), events, workers, inMemory).log;
      i < j < |log| && log[i].JobStarted? && log[j].JobStarted? && log[j].id == log[i].id
    ensures var log := Run(Initial(now), events, workers, inMemory).log;
      exists k :: i < k < j && log[k].id == log[i].id
  {
    RunKeepsLog(Initial(now), events, workers, inMemory);
    var log := Run(Initial(now), events, workers, inMemory).log;
    LegalPrefix(log, j);
    if forall k :: i < k < j ==> log[k].id != log[i].id { RunningUntilEnded(log[..j], i); }
  }

  /** The worker `v` fetches just this job, claims it, looks it up and checks it. */
  function Attempt(v: WorkerId, id: Id): seq<Event> {
    [Fetch(v, [id])] + [Claim(v)] + [LookUp(Task(v, id))] + [Check(Task(v, id))]
  }

  lemma AttemptClaims(s: State, v: WorkerId, id: Id, workers: Workers, inMemory: bool)
    requires v !in s.cycles && id !in s.locks && Task(v, id) !in s.tasks && workers(v).maxFetch >= 1 &&
      workers(v).maxParallel >= 1
    ensures var claimed := Step(Step(s, Fetch(v, [id]), workers, inMemory), Claim(v), workers, inMemory);
      if id in s.rows && IsWaiting(s.rows[id], workers(v).application, workers(v).filter, s.now)
      then claimed == s.(cycles := claimed.cycles, locks := s.locks[id := v], tasks := s.tasks[Task(v, id) := Claimed])
      else claimed == s
  {
    assert [id][0] == id && [id][1..] == [];
    assert FetchedAll(s, workers(v), [id]) <==>
      id in s.rows && IsWaiting(s.rows[id], workers(v).application, workers(v).filter, s.now);
  }

  lemma AttemptIff(s: State, v: WorkerId, id: Id, workers: Workers, inMemory: bool)
    requires v !in s.cycles && id !in s.locks && Task(v, id) !in s.tasks && workers(v).maxFetch >= 1 &&
      workers(v).maxParallel >= 1
    ensures var after := Run(s, Attempt(v, id), workers, inMemory);
      && (forall u :: u in s.tasks ==> u in after.tasks && after.tasks[u] == s.tasks[u])
      && (Task(v, id) in after.tasks && after.tasks[Task(v, id)].Executing?
          <==> id in s.rows && IsWaiting(s.rows[id], workers(v).application, workers(v).filter, s.now))
  {
    AttemptClaims(s, v, id, workers, inMemory);
    FourSteps(s, Fetch(v, [id]), Claim(v), LookUp(Task(v, id)), Check(Task(v, id)), workers, inMemory);
  }

  lemma NoOtherTask(s: State, t: Task, v: WorkerId)
    requires Inv(s) && t in s.tasks && v != t.worker
    ensures Task(v, t.id) !in s.tasks
  {
    assert ValidTask(s, t) && (Task(v, t.id) in s.tasks ==> ValidTask(s, Task(v, t.id)));
  }

  /**
   * If the lock of an executing job is lost, a free worker executes it a second time if and only if the job as stored
   * still waits for that worker.
   */
  lemma LostLockIff(s: State, t: Task, v: WorkerId, workers: Workers, inMemory: bool)
    requires Inv(s) && t in s.tasks && s.tasks[t].Executing? && v != t.worker && v !in s.cycles
    requires workers(v).maxFetch >= 1 && workers(v).maxParallel >= 1
    ensures var after := Run(s.(locks := s.locks - {t.id}), Attempt(v, t.id), workers, inMemory);
      var u := Task(v, t.id);
      (t in after.tasks && after.tasks[t].Executing? && u in after.tasks && after.tasks[u].Executing?)
      <==> t.id in s.rows && IsWaiting(s.rows[t.id], workers(v).application, workers(v).filter, s.now)
  {
    NoOtherTask(s, t, v);
    AttemptIff(s.(locks := s.locks - {t.id}), v, t.id, workers, inMemory);
  }

  // ---------------------------------------------------------------- at most `maxParallel` at a time

  function TasksIn(tasks: map<Task, Phase>, w: WorkerId): set<Task> { set t | t in tasks && t.worker == w }

  function TasksOf(s: State, w: WorkerId): set<Task> { TasksIn(s.tasks, w) }

  lemma TaskAdded(tasks: map<Task, Phase>, t: Task, p: Phase, w: WorkerId)
    ensures TasksIn(tasks[t := p], w) == if t.worker == w then TasksIn(tasks, w) + {t} else TasksIn(tasks, w)
  {
  }

  lemma TaskRemoved(tasks: map<Task, Phase>, t: Task, w: WorkerId)
    ensures TasksIn(tasks - {t}, w) == TasksIn(tasks, w) - {t}
  {
  }

  ghost predicate ValidCount(s: State, w: WorkerId, workers: Workers) {
    if w in s.cycles then |TasksOf(s, w)| <= s.cycles[w].claimed <= workers(w).maxParallel else TasksOf(s, w) == {}
  }

  lemma OneClaimed(s: State, s': State, t: Task, workers: Workers, w: WorkerId)
    requires ValidCount(s, w, workers) && t.worker in s.cycles && t.worker in s'.cycles
    requires s'.tasks == s.tasks[t := Claimed]
    requires w != t.worker ==> (w in s'.cycles <==> w in s.cycles) && (w in s.cycles ==> s'.cycles[w] == s.cycles[w])
    requires s'.cycles[t.worker].claimed == s.cycles[t.worker].claimed + 1 <= workers(t.worker).maxParallel
    ensures ValidCount(s', w, workers)
  {
    TaskAdded(s.tasks, t, Claimed, w);
    OneMore(TasksOf(s, w), t);
  }

  lemma ClaimKeepsCount(s: State, v: WorkerId, workers: Workers, w: WorkerId)
    requires ValidCount(s, w, workers)
    ensures ValidCount(AfterClaim(s, v, workers(v)), w, workers)
  {
    var s' := AfterClaim(s, v, workers(v));
    if v in s.cycles && s.cycles[v].waiting != [] {
      var id := s.cycles[v].waiting[0];
      if s.cycles[v].claimed < workers(v).maxParallel && id !in s.locks {
        OneClaimed(s, s', Task(v, id), workers, w);
      } else {
        SameTasksKeepCount(s, s', workers, w);
      }
    }
  }

  lemma OneMore(tasks: set<Task>, t: Task)
    ensures |tasks + {t}| <= |tasks| + 1
  {
    if t in tasks { assert tasks + {t} == tasks; }
  }

  lemma ReleaseKeepsCount(s: State, t: Task, workers: Workers, w: WorkerId)
    requires ValidCount(s, w, workers)
    ensures ValidCount(AfterRelease(s, t), w, workers)
  {
    TaskRemoved(s.tasks, t, w);
  }

  lemma EndCycleKeepsCount(s: State, v: WorkerId, workers: Workers, inMemory: bool, w: WorkerId)
    requires ValidCount(s, w, workers)
    ensures ValidCount(Step(s, EndCycle(v), workers, inMemory), w, workers)
  {
  }

  lemma SameTasksKeepCount(s: State, s': State, workers: Workers, w: WorkerId)
    requires ValidCount(s, w, workers) && s'.tasks.Keys == s.tasks.Keys
    requires if w in s.cycles then w in s'.cycles && s'.cycles[w].claimed == s.cycles[w].claimed else w in s'.cycles ==>
      s'.cycles[w].claimed == 0
    ensures ValidCount(s', w, workers)
  {
  }

  lemma CheckKeepsCount(s: State, t: Task, workers: Workers, inMemory: bool, w: WorkerId)
    requires ValidCount(s, w, workers)
    ensures ValidCount(AfterCheck(s, t, workers(t.worker), inMemory), w, workers)
  {
    SameTasksKeepCount(s, AfterCheck(s, t, workers(t.worker), inMemory), workers, w);
  }

  lemma FinishKeepsCount(s: State, t: Task, outcome: Outcome, workers: Workers, inMemory: bool, w: WorkerId)
    requires ValidCount(s, w, workers)
    ensures ValidCount(AfterFinish(s, t, outcome, workers(t.worker), inMemory), w, workers)
  {
    SameTasksKeepCount(s, AfterFinish(s, t, outcome, workers(t.worker), inMemory), workers, w);
  }

  lemma LookUpKeepsCount(s: State, t: Task, workers: Workers, inMemory: bool, w: WorkerId)
    requires ValidCount(s, w, workers)
    ensures ValidCount(Step(s, LookUp(t), workers, inMemory), w, workers)
  {
    SameTasksKeepCount(s, Step(s, LookUp(t), workers, inMemory), workers, w);
  }

  lemma FetchKeepsCount(s: State, v: WorkerId, waiting: seq<Id>, workers: Workers, inMemory: bool, w: WorkerId)
    requires ValidCount(s, w, workers)
    ensures ValidCount(Step(s, Fetch(v, waiting), workers, inMemory), w, workers)
  {
    SameTasksKeepCount(s, Step(s, Fetch(v, waiting), workers, inMemory), workers, w);
  }

  lemma RowStepKeepsCount(s: State, e: Event, workers: Workers, inMemory: bool, w: WorkerId)
    requires ValidCount(s, w, workers) && (e.Tick? || e.Insert? || e.CleanUp?)
    ensures ValidCount(Step(s, e, workers, inMemory), w, workers)
  {
    var s' := Step(s, e, workers, inMemory);
    assert s'.tasks == s.tasks && s'.cycles == s.cycles;
  }

  lemma StepKeepsCount(s: State, e: Event, workers: Workers, inMemory: bool, w: WorkerId)
    requires ValidCount(s, w, workers)
    ensures ValidCount(Step(s, e, workers, inMemory), w, workers)
  {
    match e {
      case Claim(v) => ClaimKeepsCount(s, v, workers, w);
      case Release(t) => ReleaseKeepsCount(s, t, workers, w);
      case EndCycle(v) => EndCycleKeepsCount(s, v, workers, inMemory, w);
      case Check(t) => CheckKeepsCount(s, t, workers, inMemory, w);
      case Finish(t, outcome) => FinishKeepsCount(s, t, outcome, workers, inMemory, w);
      case LookUp(t) => LookUpKeepsCount(s, t, workers, inMemory, w);
      case Fetch(v, waiting) => FetchKeepsCount(s, v, waiting, workers, inMemory, w);
      case _ => RowStepKeepsCount(s, e, workers, inMemory, w);
    }
  }

  /** A worker never claims more jobs in a cycle than it may execute in parallel, and executes only jobs it claimed. */
  lemma {:induction false} AtMostMaxParallel(s: State, events: seq<Event>, workers: Workers, inMemory: bool,
      w: WorkerId)
    requires ValidCount(s, w, workers)
    ensures ValidCount(Run(s, events, workers, inMemory), w, workers)
    ensures |TasksOf(Run(s, events, workers, inMemory), w)| <= workers(w).maxParallel
    decreases |events|
  {
    if events != [] {
      StepKeepsCount(s, events[0], workers, inMemory, w);
      AtMostMaxParallel(Step(s, events[0], workers, inMemory), events[1..], workers, inMemory, w);
    }
  }

  // ---------------------------------------------------------------- the claiming loop

  /** The per-job locks: one per job id. */
  class JobLocks {
    var held: set<Id>

    constructor ()
      ensures held == {}
    {
      held := {};
    }

    method TryAcquire(id: Id) returns (ok: bool)
      modifies this
      ensures ok == (id !in old(held)) && held == old(held) + {id}
    {
      ok := id !in held;
      held := held + {id};
    }
  }

  function FreeIn(held: set<Id>): Id -> bool { (id: Id) => id !in held }

  /**
   * One poll cycle undisturbed by others: of the fetched jobs, the first `maxParallel` not locked elsewhere are
   * executed. If the signal fires after `abortAfter` of them were looked at, only those count.
   */
  method ExecuteJobsInParallel(locks: JobLocks, waitingJobs: seq<Id>, maxParallel: nat, abortAfter: Option<nat>)
      returns (runningTasks: seq<Id>)
    requires forall i, j :: 0 <= i < j < |waitingJobs| ==> waitingJobs[i] != waitingJobs[j]
    modifies locks
    ensures var seen := if abortAfter.Some? then FirstN(waitingJobs, abortAfter.value) else waitingJobs;
      runningTasks == FirstN(Filter(seen, FreeIn(old(locks.held))), maxParallel)
    ensures locks.held >= old(locks.held) && forall id :: id in runningTasks ==> id in locks.held
  {
    runningTasks := [];
    ghost var free := FreeIn(locks.held);
    ghost var seen := if abortAfter.Some? then FirstN(waitingJobs, abortAfter.value) else waitingJobs;
    var k := 0;
    while k < |waitingJobs|
      invariant k <= |seen|
      invariant runningTasks == Filter(waitingJobs[..k], free) && |runningTasks| <= maxParallel
      invariant locks.held == old(locks.held) + IdsIn(waitingJobs[..k])
    {
      if |runningTasks| >= maxParallel || (abortAfter.Some? && k >= abortAfter.value) { break; }
      OneMoreId(waitingJobs, free, k);
      var ok := locks.TryAcquire(waitingJobs[k]);
      if ok { runningTasks := runningTasks + [waitingJobs[k]]; }
      k := k + 1;
    }
    CycleDone(waitingJobs, seen, free, k, runningTasks, maxParallel);
  }

  ghost function IdsIn(ids: seq<Id>): set<Id> { set id | id in ids }

  lemma OneMoreId(ids: seq<Id>, keep: Id -> bool, k: nat)
    requires k < |ids| && forall i, j :: 0 <= i < j < |ids| ==> ids[i] != ids[j]
    ensures ids[k] !in IdsIn(ids[..k]) && IdsIn(ids[..k + 1]) == IdsIn(ids[..k]) + {ids[k]}
    ensures Filter(ids[..k + 1], keep) == if keep(ids[k]) then Filter(ids[..k], keep) + [ids[k]]
      else Filter(ids[..k], keep)
  {
    FilterPrefix(ids, keep, k);
    assert ids[..k + 1] == ids[..k] + [ids[k]];
  }

  /** The loop ends with the last fetched job, at the abort or with enough jobs. */
  lemma CycleDone(ids: seq<Id>, seen: seq<Id>, free: Id -> bool, k: nat, running: seq<Id>, maxParallel: nat)
    requires k <= |seen| && seen <= ids && running == Filter(ids[..k], free)
    requires |running| <= maxParallel && (k == |seen| || |running| == maxParallel)
    ensures running == FirstN(Filter(seen, free), maxParallel)
    ensures forall id :: id in running ==> id in IdsIn(ids[..k])
  {
    FilterElements(ids[..k], free);
    assert ids[..k] == seen[..k];
    FilterConcat(seen[..k], seen[k..], free);
    assert seen[..k] + seen[k..] == seen;
  }
}
