/**
 * The workers' default mode: one lock for the whole worker, and the jobs of one fetch executed one after the other
 * without looking them up again. Any number of processes run the same workers. Every run of them is a run of the
 * parallel mode, so what holds for that holds for this.
 */
module SerialWorkers {
  import opened Common
  import opened JobStore
  import opened WorkerPartition
  import JobBackoff
  import W = JobWorkers
  import JobRetries

  /** A worker of one process, with the name of its lock. */
  datatype Setup = Setup(lockName: Text, options: WorkerOptions)

  type Setups = W.WorkerId -> Setup

  /** The jobs fetched that are still to come, as they were fetched, and the one being executed. */
  datatype Batch = Batch(rest: seq<Job>, current: Option<Job>)

  datatype State = State(
    now: int, rows: Rows, created: map<Id, int>, holders: map<Text, W.WorkerId>, batches: map<W.WorkerId, Batch>,
      log: seq<W.Entry>)

  datatype Event =
    | Tick(to: int)
    | Insert(job: Job)
    | CleanUp(id: Id)
    | TryLock(worker: W.WorkerId)
    | Fetch(worker: W.WorkerId, waiting: seq<Id>)
    | Start(worker: W.WorkerId)
    | Finish(worker: W.WorkerId, outcome: Outcome)
    | Stop(worker: W.WorkerId)

  function Initial(now: int): State { State(now, map[], map[], map[], map[], []) }

  predicate Holds(s: State, w: W.WorkerId, setups: Setups) {
    setups(w).lockName in s.holders && s.holders[setups(w).lockName] == w
  }

  predicate Distinct(ids: seq<Id>) { forall i, j :: 0 <= i < j < |ids| ==> ids[i] != ids[j] }

  predicate CanFetch(s: State, w: W.WorkerId, waiting: seq<Id>, setups: Setups) {
    && Holds(s, w, setups) && w !in s.batches && |waiting| <= setups(w).options.maxFetch && Distinct(waiting)
    && forall i :: 0 <= i < |waiting| ==>
         waiting[i] in s.rows && IsWaiting(s.rows[waiting[i]], setups(w).options.application, setups(w).options.filter,
           s.now)
  }

  predicate CanStart(s: State, w: W.WorkerId) {
    w in s.batches && s.batches[w].current.None? && s.batches[w].rest != []
  }

  predicate IsExecuting(s: State, w: W.WorkerId) { w in s.batches && s.batches[w].current.Some? }

  function AfterStart(s: State, w: W.WorkerId, inMemory: bool): State
    requires CanStart(s, w)
  {
    var j := s.batches[w].rest[0];
    var job := Started(j, s.now);
    s.(batches := s.batches[w := Batch(s.batches[w].rest[1..], Some(job))],
       rows := if inMemory && j.id in s.rows then s.rows[j.id := job] else s.rows,
       log := s.log + [W.JobStarted(j.id, s.now)])
  }

  function AfterFinish(s: State, w: W.WorkerId, outcome: Outcome, o: WorkerOptions, inMemory: bool): State
    requires IsExecuting(s, w)
  {
    var job := s.batches[w].current.value;
    var after := AfterOutcome(job, outcome, o, s.now);
    s.(batches := s.batches[w := s.batches[w].(current := None)],
       rows := Stored(s.rows, job.id, after, inMemory),
       log := s.log + [W.EntryFor(job.id, outcome, after)])
  }

  /**
   * Events that cannot happen in a state leave it as it is; `Stop` comes after the last job, or earlier on an abort.
   */
  function Step(s: State, e: Event, setups: Setups, inMemory: bool): State {
    match e
    case Tick(to) => if to < s.now then s else s.(now := to)
    case Insert(job) =>
      if job.id in s.created || !W.IsNew(job, s.now) then s
      else s.(rows := s.rows[job.id := job], created := s.created[job.id := job.creationTime])
    case CleanUp(id) => if id in s.rows && s.rows[id].completionTime.Some? then s.(rows := s.rows - {id}) else s
    case TryLock(w) => if setups(w).lockName in s.holders then s else s.(holders := s.holders[setups(w).lockName := w])
    case Fetch(w, waiting) =>
      if !CanFetch(s, w, waiting, setups) then s
      else s.(batches := s.batches[w :=
        Batch(seq(|waiting|, i requires 0 <= i < |waiting| => s.rows[waiting[i]]), None)])
    case Start(w) => if CanStart(s, w) then AfterStart(s, w, inMemory) else s
    case Finish(w, outcome) => if IsExecuting(s, w) then AfterFinish(s, w, outcome, setups(w).options, inMemory) else s
    case Stop(w) =>
      if !Holds(s, w, setups) || IsExecuting(s, w) then s
      else s.(batches := s.batches - {w}, holders := s.holders - {setups(w).lockName})
  }

  function Run(s: State, events: seq<Event>, setups: Setups, inMemory: bool): State
    decreases |events|
  {
    if events == [] then s else Run(Step(s, events[0], setups, inMemory), events[1..], setups, inMemory)
  }

  // ---------------------------------------------------------------- workers apart

  predicate Owns(o: WorkerOptions, j: Job) { j.application == o.application && IsMatch(o.filter, j.jobName) }

  /** Workers with different locks never take the same job. */
  ghost predicate Apart(setups: Setups) {
    forall v, w, j :: setups(v).lockName != setups(w).lockName && Owns(setups(v).options, j) ==>
      !Owns(setups(w).options, j)
  }

  lemma {:induction false} MatchOnce(workers: seq<Worker>, i: nat, name: Text)
    requires i < |workers| && IsMatch(workers[i].filter, name)
    ensures MatchCount(workers, name) >= 1
  {
    if i < |workers| - 1 { MatchOnce(workers[..|workers| - 1], i, name); }
  }

  lemma {:induction false} MatchTwice(workers: seq<Worker>, i: nat, j: nat, name: Text)
    requires i < j < |workers| && IsMatch(workers[i].filter, name) && IsMatch(workers[j].filter, name)
    ensures MatchCount(workers, name) >= 2
  {
    var init := workers[..|workers| - 1];
    if j < |workers| - 1 { MatchTwice(init, i, j, name); } else { MatchOnce(init, i, name); }
  }

  predicate RunsAs(setup: Setup, worker: Worker) {
    setup.lockName == worker.lockName && setup.options.filter == worker.filter
  }

  /** The workers every process creates from the same options are apart. */
  lemma CreatedAreApart(o: Options, setups: Setups, index: W.WorkerId -> nat)
    requires Created(o).Ok?
    requires forall w :: index(w) < |Created(o).value| && RunsAs(setups(w), Created(o).value[index(w)])
    ensures Apart(setups)
  {
    var workers := Created(o).value;
    forall v, w, j | setups(v).lockName != setups(w).lockName && Owns(setups(v).options, j)
      ensures !Owns(setups(w).options, j) {
      ExactlyOneWorker(o, j.jobName);
      if Owns(setups(w).options, j) {
        MatchTwice(workers, if index(v) < index(w) then index(v) else index(w), if index(v) < index(w) then index(w)
          else index(v), j.jobName);
      }
    }
  }

  // ---------------------------------------------------------------- the invariant

  /** The jobs to come are still stored as they were fetched. */
  ghost predicate ValidBatch(s: State, w: W.WorkerId, setups: Setups) {
    && w in s.batches && Holds(s, w, setups)
    && var o := setups(w).options;
       var Batch(rest, current) := s.batches[w];
       && (forall i :: 0 <= i < |rest| ==>
             rest[i].id in s.rows && s.rows[rest[i].id] == rest[i] &&
               IsWaiting(rest[i], o.application, o.filter, s.now))
       && (forall i, j :: 0 <= i < j < |rest| ==> rest[i].id != rest[j].id)
       && (current.Some? ==>
             && current.value.id in s.rows && Live(s.rows[current.value.id]) && Owns(o, s.rows[current.value.id])
             && forall i :: 0 <= i < |rest| ==> rest[i].id != current.value.id)
  }

  ghost predicate Inv(s: State, setups: Setups) {
    && (forall w :: w in s.batches ==> ValidBatch(s, w, setups))
    && (forall id :: id in s.rows ==> id in s.created && s.rows[id].id == id)
  }

  /** No two workers have the same job at hand. */
  lemma OtherJobs(s: State, setups: Setups, v: W.WorkerId, w: W.WorkerId, id: Id)
    requires Apart(setups) && Inv(s, setups) && v in s.batches && w in s.batches && v != w && id in s.rows
    requires Owns(setups(v).options, s.rows[id])
    ensures !Owns(setups(w).options, s.rows[id])
  {
    assert ValidBatch(s, v, setups) && ValidBatch(s, w, setups);
  }

  /** The jobs being executed. */
  function CurrentJobs(s: State): map<W.WorkerId, Job> {
    map w | w in s.batches && s.batches[w].current.Some? :: s.batches[w].current.value
  }

  /** Parallel workers that have claimed just these jobs and execute them. */
  ghost predicate Mirrors(jobs: map<W.WorkerId, Job>, tasks: map<W.Task, W.Phase>, locks: map<Id, W.WorkerId>,
      cycles: map<W.WorkerId, W.Cycle>) {
    && (forall w :: w in jobs ==> var t := W.Task(w, jobs[w].id); t in tasks && tasks[t] == W.Executing(jobs[w]))
    && (forall t :: t in tasks ==> t.worker in jobs && t.id == jobs[t.worker].id)
    && cycles.Keys == jobs.Keys
    && (forall w :: w in jobs ==> jobs[w].id in locks && locks[jobs[w].id] == w)
    && (forall id :: id in locks ==> locks[id] in jobs && jobs[locks[id]].id == id)
  }

  predicate SameStore(s: State, p: W.State) {
    p.now == s.now && p.rows == s.rows && p.created == s.created && p.log == s.log
  }

  ghost predicate MirrorsJobs(s: State, p: W.State) { Mirrors(CurrentJobs(s), p.tasks, p.locks, p.cycles) }

  ghost predicate Simulates(s: State, p: W.State) { SameStore(s, p) && MirrorsJobs(s, p) }

  lemma SameJobs(s: State, s': State, p: W.State, p': W.State)
    requires MirrorsJobs(s, p) && CurrentJobs(s') == CurrentJobs(s)
    requires p'.tasks == p.tasks && p'.locks == p.locks && p'.cycles == p.cycles
    ensures MirrorsJobs(s', p')
  {
  }

  lemma MirrorsMore(jobs: map<W.WorkerId, Job>, tasks: map<W.Task, W.Phase>, locks: map<Id, W.WorkerId>,
                    cycles: map<W.WorkerId, W.Cycle>, w: W.WorkerId, job: Job, c: W.Cycle)
    requires Mirrors(jobs, tasks, locks, cycles) && w !in jobs && job.id !in locks
    ensures Mirrors(jobs[w := job], tasks[W.Task(w, job.id) := W.Executing(job)], locks[job.id := w], cycles[w := c])
  {
  }

  lemma MirrorsLess(jobs: map<W.WorkerId, Job>, tasks: map<W.Task, W.Phase>, locks: map<Id, W.WorkerId>,
                    cycles: map<W.WorkerId, W.Cycle>, w: W.WorkerId)
    requires Mirrors(jobs, tasks, locks, cycles) && w in jobs
    ensures Mirrors(jobs - {w}, tasks - {W.Task(w, jobs[w].id)}, locks - {jobs[w].id}, cycles - {w})
    ensures forall t :: t in tasks - {W.Task(w, jobs[w].id)} ==> t.worker != w
  {
  }

  /** The options of the parallel worker that mirrors a serial one: it takes one job at a time. */
  function Mirrored(setups: Setups): W.Workers {
    (w: W.WorkerId) => setups(w).options.(maxFetch := 1, maxParallel := 1)
  }

  lemma SameBatch(s: State, s': State, w: W.WorkerId, setups: Setups)
    requires ValidBatch(s, w, setups) && w in s'.batches && s'.batches[w] == s.batches[w] && Holds(s', w, setups) &&
      s.now <= s'.now
    requires forall i :: 0 <= i < |s.batches[w].rest| ==>
      var id := s.batches[w].rest[i].id; id in s'.rows && s'.rows[id] == s.batches[w].rest[i]
    requires s.batches[w].current.Some? ==>
      var id := s.batches[w].current.value.id; id in s'.rows && s'.rows[id] == s.rows[id]
    ensures ValidBatch(s', w, setups)
  {
  }

  lemma StartKeepsInv(s: State, w: W.WorkerId, setups: Setups, inMemory: bool)
    requires Apart(setups) && Inv(s, setups) && CanStart(s, w)
    ensures Inv(AfterStart(s, w, inMemory), setups)
  {
    var s', j := AfterStart(s, w, inMemory), s.batches[w].rest[0];
    assert ValidBatch(s, w, setups);
    forall v | v in s'.batches ensures ValidBatch(s', v, setups) {
      assert ValidBatch(s, v, setups);
      if v != w {
        OtherJobs(s, setups, w, v, j.id);
        SameBatch(s, s', v, setups);
      }
    }
  }

  lemma FinishKeepsInv(s: State, w: W.WorkerId, outcome: Outcome, setups: Setups, inMemory: bool)
    requires Apart(setups) && Inv(s, setups) && IsExecuting(s, w) && s.batches[w].current.value.id in s.created
    ensures Inv(AfterFinish(s, w, outcome, setups(w).options, inMemory), setups)
  {
    var s', job := AfterFinish(s, w, outcome, setups(w).options, inMemory), s.batches[w].current.value;
    assert ValidBatch(s, w, setups);
    forall v | v in s'.batches ensures ValidBatch(s', v, setups) {
      assert ValidBatch(s, v, setups);
      if v != w {
        OtherJobs(s, setups, w, v, job.id);
        SameBatch(s, s', v, setups);
      }
    }
  }

  lemma FetchKeepsInv(s: State, w: W.WorkerId, waiting: seq<Id>, setups: Setups, inMemory: bool)
    requires Inv(s, setups) && CanFetch(s, w, waiting, setups)
    ensures Inv(Step(s, Fetch(w, waiting), setups, inMemory), setups)
  {
    var s' := Step(s, Fetch(w, waiting), setups, inMemory);
    forall i | 0 <= i < |waiting| ensures s'.batches[w].rest[i] == s.rows[waiting[i]] &&
      s.rows[waiting[i]].id == waiting[i] { }
    forall v | v in s'.batches ensures ValidBatch(s', v, setups) { if v != w { SameBatch(s, s', v, setups); } }
  }

  /** Time, and rows that no batch is about. */
  lemma StoreKeepsInv(s: State, e: Event, setups: Setups, inMemory: bool)
    requires Inv(s, setups) && (e.Tick? || e.Insert? || e.CleanUp?)
    ensures Inv(Step(s, e, setups, inMemory), setups)
  {
    var s' := Step(s, e, setups, inMemory);
    forall v | v in s'.batches ensures ValidBatch(s', v, setups) {
      assert ValidBatch(s, v, setups);
      SameBatch(s, s', v, setups);
    }
  }

  lemma LocksKeepInv(s: State, e: Event, setups: Setups, inMemory: bool)
    requires Inv(s, setups) && (e.TryLock? || e.Stop?)
    ensures Inv(Step(s, e, setups, inMemory), setups)
  {
    var s' := Step(s, e, setups, inMemory);
    forall v | v in s'.batches ensures ValidBatch(s', v, setups) {
      assert ValidBatch(s, v, setups);
      SameBatch(s, s', v, setups);
    }
  }

  lemma StepKeepsInv(s: State, e: Event, setups: Setups, inMemory: bool)
    requires Apart(setups) && Inv(s, setups)
    ensures Inv(Step(s, e, setups, inMemory), setups)
  {
    match e {
      case Start(w) => if CanStart(s, w) { StartKeepsInv(s, w, setups, inMemory); }
      case Finish(w, outcome) =>
        if IsExecuting(s, w) {
          assert ValidBatch(s, w, setups);
          FinishKeepsInv(s, w, outcome, setups, inMemory);
        }
      case Fetch(w, waiting) => if CanFetch(s, w, waiting, setups) { FetchKeepsInv(s, w, waiting, setups, inMemory); }
      case TryLock(_) => LocksKeepInv(s, e, setups, inMemory);
      case Stop(_) => LocksKeepInv(s, e, setups, inMemory);
      case _ => StoreKeepsInv(s, e, setups, inMemory);
    }
  }

  // ---------------------------------------------------------------- the simulation

  lemma NextIsFree(s: State, p: W.State, w: W.WorkerId, setups: Setups)
    requires Apart(setups) && Inv(s, setups) && Simulates(s, p) && CanStart(s, w)
    ensures s.batches[w].rest[0].id !in p.locks && w !in p.cycles
  {
    var j := s.batches[w].rest[0];
    assert ValidBatch(s, w, setups);
    if j.id in p.locks {
      var v := p.locks[j.id];
      assert v in CurrentJobs(s);
      assert ValidBatch(s, v, setups);
      OtherJobs(s, setups, v, w, j.id);
      assert false;
    }
  }

  /** The mirrored worker fetches, claims and finds the next job as it was fetched here. */
  function FoundNext(p: W.State, w: W.WorkerId, j: Job): W.State {
    p.(cycles := p.cycles[w := W.Cycle([], 1)], locks := p.locks[j.id := w], tasks :=
      p.tasks[W.Task(w, j.id) := W.Found(Some(j))])
  }

  lemma FetchedOne(p: W.State, w: W.WorkerId, j: Job, workers: W.Workers, inMemory: bool)
    requires w !in p.cycles && j.id in p.rows && p.rows[j.id] == j && workers(w).maxFetch == 1
    requires IsWaiting(j, workers(w).application, workers(w).filter, p.now)
    ensures W.Step(p, W.Fetch(w, [j.id]), workers, inMemory) == p.(cycles := p.cycles[w := W.Cycle([j.id], 0)])
  {
    assert W.FetchedAll(p, workers(w), [j.id]);
  }

  lemma ClaimedOne(p: W.State, w: W.WorkerId, j: Job, workers: W.Workers, inMemory: bool)
    requires j.id !in p.locks && workers(w).maxParallel == 1
    ensures var fetched := p.(cycles := p.cycles[w := W.Cycle([j.id], 0)]);
      W.Step(fetched, W.Claim(w), workers, inMemory)
        == p.(cycles := p.cycles[w := W.Cycle([], 1)], locks := p.locks[j.id := w], tasks :=
          p.tasks[W.Task(w, j.id) := W.Claimed])
  {
    var fetched := p.(cycles := p.cycles[w := W.Cycle([j.id], 0)]);
    assert [j.id][1..] == [];
    assert fetched.cycles[w := W.Cycle([], 1)] == p.cycles[w := W.Cycle([], 1)];
  }

  lemma LookedUpOne(p: W.State, w: W.WorkerId, j: Job, workers: W.Workers, inMemory: bool)
    requires j.id in p.rows && p.rows[j.id] == j
    ensures var claimed := p.(cycles := p.cycles[w := W.Cycle([], 1)], locks := p.locks[j.id := w], tasks :=
      p.tasks[W.Task(w, j.id) := W.Claimed]);
      W.Step(claimed, W.LookUp(W.Task(w, j.id)), workers, inMemory) == FoundNext(p, w, j)
  {
    assert p.tasks[W.Task(w, j.id) := W.Claimed][W.Task(w, j.id) := W.Found(Some(j))] ==
      p.tasks[W.Task(w, j.id) := W.Found(Some(j))];
  }

  function StartEvents(w: W.WorkerId, id: Id): seq<W.Event> {
    [W.Fetch(w, [id])] + [W.Claim(w)] + [W.LookUp(W.Task(w, id))] + [W.Check(W.Task(w, id))]
  }

  lemma StartRun(p: W.State, w: W.WorkerId, j: Job, workers: W.Workers, inMemory: bool)
    requires w !in p.cycles && j.id !in p.locks && j.id in p.rows && p.rows[j.id] == j
    requires workers(w).maxFetch == 1 && workers(w).maxParallel == 1
    requires IsWaiting(j, workers(w).application, workers(w).filter, p.now)
    ensures W.Run(p, StartEvents(w, j.id), workers, inMemory)
      == W.AfterCheck(FoundNext(p, w, j), W.Task(w, j.id), workers(w), inMemory)
  {
    FetchedOne(p, w, j, workers, inMemory);
    ClaimedOne(p, w, j, workers, inMemory);
    LookedUpOne(p, w, j, workers, inMemory);
    W.FourSteps(p, W.Fetch(w, [j.id]), W.Claim(w), W.LookUp(W.Task(w, j.id)), W.Check(W.Task(w, j.id)), workers,
      inMemory);
  }

  lemma NextIsStored(s: State, w: W.WorkerId, setups: Setups)
    requires Inv(s, setups) && CanStart(s, w)
    ensures var j, o := s.batches[w].rest[0], setups(w).options;
      j.id in s.rows && s.rows[j.id] == j && IsWaiting(j, o.application, o.filter, s.now)
  {
    assert ValidBatch(s, w, setups);
  }

  lemma StartSimulated(s: State, p: W.State, w: W.WorkerId, setups: Setups, inMemory: bool)
    requires Apart(setups) && Inv(s, setups) && Simulates(s, p) && CanStart(s, w)
    ensures Simulates(AfterStart(s, w, inMemory),
      W.Run(p, StartEvents(w, s.batches[w].rest[0].id), Mirrored(setups), inMemory))
  {
    NextIsFree(s, p, w, setups);
    NextIsStored(s, w, setups);
    StartRun(p, w, s.batches[w].rest[0], Mirrored(setups), inMemory);
    StartedSimulates(s, p, w, setups, inMemory);
  }

  lemma StartedSimulates(s: State, p: W.State, w: W.WorkerId, setups: Setups, inMemory: bool)
    requires Simulates(s, p) && CanStart(s, w) && s.batches[w].rest[0].id !in p.locks &&
      s.batches[w].rest[0].id in s.rows
    requires IsWaiting(s.batches[w].rest[0], setups(w).options.application, setups(w).options.filter, s.now)
    ensures var j := s.batches[w].rest[0];
      Simulates(AfterStart(s, w, inMemory),
        W.AfterCheck(FoundNext(p, w, j), W.Task(w, j.id), Mirrored(setups)(w), inMemory))
  {
    var j := s.batches[w].rest[0];
    StartedCheck(p, w, j, Mirrored(setups)(w), inMemory);
    StartedJobs(s, p, w, inMemory);
  }

  /** What checking the found job does. */
  lemma StartedCheck(p: W.State, w: W.WorkerId, j: Job, o: WorkerOptions, inMemory: bool)
    requires IsWaiting(j, o.application, o.filter, p.now)
    ensures var job := Started(j, p.now);
      W.AfterCheck(FoundNext(p, w, j), W.Task(w, j.id), o, inMemory)
        == p.(cycles := p.cycles[w := W.Cycle([], 1)], locks := p.locks[j.id := w],
              tasks := p.tasks[W.Task(w, j.id) := W.Executing(job)],
              rows := if inMemory && j.id in p.rows then p.rows[j.id := job] else p.rows,
              log := p.log + [W.JobStarted(j.id, p.now)])
  {
    var t := W.Task(w, j.id);
    assert p.tasks[t := W.Found(Some(j))][t := W.Executing(Started(j, p.now))] ==
      p.tasks[t := W.Executing(Started(j, p.now))];
  }

  lemma StartedJobs(s: State, p: W.State, w: W.WorkerId, inMemory: bool)
    requires MirrorsJobs(s, p) && CanStart(s, w) && s.batches[w].rest[0].id !in p.locks
    ensures var job := Started(s.batches[w].rest[0], s.now);
      Mirrors(CurrentJobs(AfterStart(s, w, inMemory)), p.tasks[W.Task(w, job.id) := W.Executing(job)],
        p.locks[job.id := w],
              p.cycles[w := W.Cycle([], 1)])
  {
    var job := Started(s.batches[w].rest[0], s.now);
    assert CurrentJobs(AfterStart(s, w, inMemory)) == CurrentJobs(s)[w := job];
    MirrorsMore(CurrentJobs(s), p.tasks, p.locks, p.cycles, w, job, W.Cycle([], 1));
  }

  function FinishEvents(w: W.WorkerId, id: Id, outcome: Outcome): seq<W.Event> {
    [W.Finish(W.Task(w, id), outcome)] + [W.Release(W.Task(w, id))] + [W.EndCycle(w)]
  }

  lemma FinishSimulated(s: State, p: W.State, w: W.WorkerId, outcome: Outcome, setups: Setups, inMemory: bool)
    requires Simulates(s, p) && IsExecuting(s, w)
    ensures Simulates(AfterFinish(s, w, outcome, setups(w).options, inMemory),
                      W.Run(p, FinishEvents(w, s.batches[w].current.value.id, outcome), Mirrored(setups), inMemory))
  {
    var job, workers := s.batches[w].current.value, Mirrored(setups);
    var t := W.Task(w, job.id);
    FinishedJobs(s, p, w, outcome, setups(w).options, inMemory);
    ReleasedOne(p, t, job, outcome, workers, inMemory);
    SameOutcome(job, outcome, setups(w).options, s.now);
    W.ThreeSteps(p, W.Finish(t, outcome), W.Release(t), W.EndCycle(w), workers, inMemory);
  }

  /** How a job ends does not depend on how many are fetched or run in parallel. */
  lemma SameOutcome(job: Job, outcome: Outcome, o: WorkerOptions, now: int)
    ensures AfterOutcome(job, outcome, o.(maxFetch := 1, maxParallel := 1), now) == AfterOutcome(job, outcome, o, now)
  {
  }

  lemma OneJobLess(s: State, w: W.WorkerId, outcome: Outcome, o: WorkerOptions, inMemory: bool)
    requires IsExecuting(s, w)
    ensures w in CurrentJobs(s) && CurrentJobs(s)[w] == s.batches[w].current.value
    ensures CurrentJobs(AfterFinish(s, w, outcome, o, inMemory)) == CurrentJobs(s) - {w}
  {
  }

  lemma FinishedJobs(s: State, p: W.State, w: W.WorkerId, outcome: Outcome, o: WorkerOptions, inMemory: bool)
    requires MirrorsJobs(s, p) && IsExecuting(s, w)
    ensures var t := W.Task(w, s.batches[w].current.value.id);
      && t in p.tasks && p.tasks[t] == W.Executing(s.batches[w].current.value)
      && (forall u :: u in p.tasks - {t} ==> u.worker != w)
      && Mirrors(CurrentJobs(AfterFinish(s, w, outcome, o, inMemory)), p.tasks - {t}, p.locks - {t.id}, p.cycles - {w})
  {
    OneJobLess(s, w, outcome, o, inMemory);
    MirrorsLess(CurrentJobs(s), p.tasks, p.locks, p.cycles, w);
  }

  /** What finishing, releasing and ending the cycle of an executing task does. */
  lemma ReleasedOne(p: W.State, t: W.Task, job: Job, outcome: Outcome, workers: W.Workers, inMemory: bool)
    requires t in p.tasks && p.tasks[t] == W.Executing(job) && forall u :: u in p.tasks - {t} ==> u.worker != t.worker
    ensures var after := AfterOutcome(job, outcome, workers(t.worker), p.now);
      W.Step(W.Step(W.Step(p, W.Finish(t, outcome), workers, inMemory), W.Release(t), workers, inMemory),
        W.EndCycle(t.worker), workers, inMemory)
        == p.(tasks := p.tasks - {t}, locks := p.locks - {t.id}, cycles := p.cycles - {t.worker},
              rows := Stored(p.rows, t.id, after, inMemory), log := p.log + [W.EntryFor(t.id, outcome, after)])
  {
    var released := W.AfterRelease(W.AfterFinish(p, t, outcome, workers(t.worker), inMemory), t);
    assert released.tasks == p.tasks - {t};
  }

  /** The events of the parallel mode that do what one event of this mode does. */
  function EventsFor(s: State, e: Event): seq<W.Event> {
    match e
    case Tick(to) => [W.Tick(to)]
    case Insert(job) => [W.Insert(job)]
    case CleanUp(id) => [W.CleanUp(id)]
    case Start(w) => if CanStart(s, w) then StartEvents(w, s.batches[w].rest[0].id) else []
    case Finish(w, outcome) => if IsExecuting(s, w) then FinishEvents(w, s.batches[w].current.value.id, outcome) else []
    case _ => []
  }

  lemma LockStepJobs(s: State, e: Event, setups: Setups, inMemory: bool)
    requires !e.Start? && !e.Finish?
    ensures CurrentJobs(Step(s, e, setups, inMemory)) == CurrentJobs(s)
  {
    var s' := Step(s, e, setups, inMemory);
    forall w ensures (w in CurrentJobs(s') <==> w in CurrentJobs(s)) &&
      (w in CurrentJobs(s) ==> CurrentJobs(s')[w] == CurrentJobs(s)[w]) { }
  }

  lemma OtherSimulated(s: State, p: W.State, e: Event, setups: Setups, inMemory: bool)
    requires Simulates(s, p) && (e.TryLock? || e.Fetch? || e.Stop?)
    ensures Simulates(Step(s, e, setups, inMemory), p)
  {
    LockStepJobs(s, e, setups, inMemory);
    SameJobs(s, Step(s, e, setups, inMemory), p, p);
  }

  lemma InsertStep(s: State, p: W.State, job: Job, setups: Setups, inMemory: bool)
    requires SameStore(s, p)
    ensures var p' := W.Step(p, W.Insert(job), Mirrored(setups), inMemory);
      SameStore(Step(s, Insert(job), setups, inMemory), p') && p'.(rows := p.rows, created := p.created) == p
  {
  }

  lemma CleanUpStep(s: State, p: W.State, id: Id, setups: Setups, inMemory: bool)
    requires SameStore(s, p)
    ensures var p' := W.Step(p, W.CleanUp(id), Mirrored(setups), inMemory);
      SameStore(Step(s, CleanUp(id), setups, inMemory), p') && p'.(rows := p.rows) == p
  {
  }

  lemma StoreStep(s: State, p: W.State, e: Event, setups: Setups, inMemory: bool)
    requires SameStore(s, p) && (e.Tick? || e.Insert? || e.CleanUp?)
    ensures var p' := W.Step(p, EventsFor(s, e)[0], Mirrored(setups), inMemory);
      SameStore(Step(s, e, setups, inMemory), p') && p'.tasks == p.tasks && p'.locks == p.locks && p'.cycles == p.cycles
  {
    match e {
      case Insert(job) => InsertStep(s, p, job, setups, inMemory);
      case CleanUp(id) => CleanUpStep(s, p, id, setups, inMemory);
      case _ =>
    }
  }

  lemma StoreSimulated(s: State, p: W.State, e: Event, setups: Setups, inMemory: bool)
    requires Simulates(s, p) && (e.Tick? || e.Insert? || e.CleanUp?)
    ensures Simulates(Step(s, e, setups, inMemory), W.Run(p, EventsFor(s, e), Mirrored(setups), inMemory))
  {
    StoreStep(s, p, e, setups, inMemory);
    W.RunOne(p, EventsFor(s, e)[0], Mirrored(setups), inMemory);
    LockStepJobs(s, e, setups, inMemory);
    SameJobs(s, Step(s, e, setups, inMemory), p, W.Step(p, EventsFor(s, e)[0], Mirrored(setups), inMemory));
  }

  lemma StepSimulated(s: State, p: W.State, e: Event, setups: Setups, inMemory: bool)
    requires Apart(setups) && Inv(s, setups) && Simulates(s, p)
    ensures Simulates(Step(s, e, setups, inMemory), W.Run(p, EventsFor(s, e), Mirrored(setups), inMemory))
  {
    match e {
      case Start(w) => if CanStart(s, w) { StartSimulated(s, p, w, setups, inMemory); }
      case Finish(w, outcome) => if IsExecuting(s, w) { FinishSimulated(s, p, w, outcome, setups, inMemory); }
      case TryLock(_) => OtherSimulated(s, p, e, setups, inMemory);
      case Fetch(_, _) => OtherSimulated(s, p, e, setups, inMemory);
      case Stop(_) => OtherSimulated(s, p, e, setups, inMemory);
      case _ => StoreSimulated(s, p, e, setups, inMemory);
    }
  }

  function AllEvents(s: State, events: seq<Event>, setups: Setups, inMemory: bool): seq<W.Event>
    decreases |events|
  {
    if events == [] then [] else EventsFor(s, events[0]) + AllEvents(Step(s, events[0], setups, inMemory), events[1..],
      setups, inMemory)
  }

  lemma {:induction false} RunSimulated(s: State, p: W.State, events: seq<Event>, setups: Setups, inMemory: bool)
    requires Apart(setups) && Inv(s, setups) && Simulates(s, p)
    ensures Simulates(Run(s, events, setups, inMemory),
      W.Run(p, AllEvents(s, events, setups, inMemory), Mirrored(setups), inMemory))
    decreases |events|
  {
    if events != [] {
      var s', first := Step(s, events[0], setups, inMemory), EventsFor(s, events[0]);
      StepSimulated(s, p, events[0], setups, inMemory);
      StepKeepsInv(s, events[0], setups, inMemory);
      RunSimulated(s', W.Run(p, first, Mirrored(setups), inMemory), events[1..], setups, inMemory);
      W.RunConcat(p, first, AllEvents(s', events[1..], setups, inMemory), Mirrored(setups), inMemory);
    }
  }

  /** Every run of the default mode is a run of the parallel mode: same jobs, same log, same executions. */
  lemma SerialIsParallel(now: int, events: seq<Event>, setups: Setups, inMemory: bool)
    requires Apart(setups)
    ensures Simulates(Run(Initial(now), events, setups, inMemory),
                      W.Run(W.Initial(now), AllEvents(Initial(now), events, setups, inMemory), Mirrored(setups),
                        inMemory))
  {
    assert CurrentJobs(Initial(now)) == map[];
    RunSimulated(Initial(now), W.Initial(now), events, setups, inMemory);
  }

  // ---------------------------------------------------------------- what carries over

  /** No two workers ever execute the same job at the same time. */
  lemma NeverTwiceAtOnce(now: int, events: seq<Event>, setups: Setups, inMemory: bool, v: W.WorkerId, w: W.WorkerId)
    requires Apart(setups)
    requires var s := Run(Initial(now), events, setups, inMemory);
      IsExecuting(s, v) && IsExecuting(s, w) && s.batches[v].current.value.id == s.batches[w].current.value.id
    ensures v == w
  {
    var s := Run(Initial(now), events, setups, inMemory);
    SerialIsParallel(now, events, setups, inMemory);
    assert v in CurrentJobs(s) && w in CurrentJobs(s);
  }

  /** Although nobody looks at a job again before executing it, nothing happens to it once it is over. */
  lemma OverIsNeverStarted(now: int, events: seq<Event>, setups: Setups, inMemory: bool, i: nat)
    requires Apart(setups)
    requires var log := Run(Initial(now), events, setups, inMemory).log;
      i < |log| && (log[i].JobSucceeded? || log[i].JobAbandoned?)
    ensures var log := Run(Initial(now), events, setups, inMemory).log;
      forall j :: i < j < |log| ==> log[j].id != log[i].id
  {
    SerialIsParallel(now, events, setups, inMemory);
    W.OverIsNeverStarted(now, AllEvents(Initial(now), events, setups, inMemory), Mirrored(setups), inMemory, i);
  }

  /** Every start waits for the reschedule before it. */
  lemma StartsFollowBackoff(now: int, events: seq<Event>, setups: Setups, inMemory: bool, b: JobBackoff.Backoff, id: Id)
    requires Apart(setups) && forall w :: setups(w).options.retryRule == ExponentialBackoff(b)
    ensures var s := Run(Initial(now), events, setups, inMemory);
      if id in s.created then JobBackoff.Failing(b, s.created[id], JobRetries.Starts(s.log, id))
        else JobRetries.Starts(s.log, id) == []
  {
    SerialIsParallel(now, events, setups, inMemory);
    JobRetries.StartsFollowBackoff(now, AllEvents(Initial(now), events, setups, inMemory), Mirrored(setups), inMemory,
      b, id);
  }

  /** With all defaults no job is ever started more than 12 times, by however many processes. */
  lemma AtMostTwelveStarts(now: int, events: seq<Event>, setups: Setups, inMemory: bool, id: Id)
    requires Apart(setups) && forall w :: setups(w).options.retryRule == ExponentialBackoff(JobBackoff.DEFAULTS)
    ensures |JobRetries.Starts(Run(Initial(now), events, setups, inMemory).log, id)| <= 12
  {
    SerialIsParallel(now, events, setups, inMemory);
    JobRetries.AtMostTwelveStarts(now, AllEvents(Initial(now), events, setups, inMemory), Mirrored(setups), inMemory,
      id);
  }

  // ---------------------------------------------------------------- losing the lock

  /**
   * If the lock of an executing worker is lost, another process that gets it executes the same job a second time if and
   * only if the job as stored still waits; stores outside the process keep it so until the execution ends.
   */
  lemma LostLockIff(s: State, w: W.WorkerId, v: W.WorkerId, setups: Setups, inMemory: bool)
    requires IsExecuting(s, w) && Holds(s, w, setups) && v !in s.batches && setups(v).lockName == setups(w).lockName
    requires setups(v).options.maxFetch >= 1 && s.batches[w].current.value.id in s.rows
    requires s.rows[s.batches[w].current.value.id].id == s.batches[w].current.value.id
    ensures var id, o := s.batches[w].current.value.id, setups(v).options;
      var locked := Step(s.(holders := s.holders - {setups(w).lockName}), TryLock(v), setups, inMemory);
      var after := Step(Step(locked, Fetch(v, [id]), setups, inMemory), Start(v), setups, inMemory);
      (IsExecuting(after, w) && IsExecuting(after, v) &&
        after.batches[v].current.value.id == after.batches[w].current.value.id)
      <==> IsWaiting(s.rows[id], o.application, o.filter, s.now)
  {
    var id, o := s.batches[w].current.value.id, setups(v).options;
    var locked := Step(s.(holders := s.holders - {setups(w).lockName}), TryLock(v), setups, inMemory);
    assert CanFetch(locked, v, [id], setups) <==> IsWaiting(s.rows[id], o.application, o.filter, s.now) by {
      assert [id][0] == id;
    }
    var fetched := Step(locked, Fetch(v, [id]), setups, inMemory);
    if CanFetch(locked, v, [id], setups) {
      assert fetched.batches[v].rest[0] == s.rows[id];
      assert CanStart(fetched, v);
    } else {
      assert fetched == locked && v !in locked.batches;
    }
  }
}
