/**
 The crawl-job protocol: web creators, dispatchers, detached workers and reconcilers that share
 the crawl_job table and nothing else.  A run is any sequence of events; an event that is not
 enabled changes nothing, so every interleaving is a run.
 */
module CrawlProtocol {
  import opened Options
  import opened Ordering
  import opened CrawlJobs

  type CreatorId = nat
  type WorkerId = nat
  type DispatcherId = nat

  /** A creation request: before and after it has seen no active row of its source. */
  datatype Creator =
    | Requested(source: SourceId, jobType: JobType, retryOf: Option<JobId>)
    | Checked(source: SourceId, jobType: JobType, retryOf: Option<JobId>)

  /** Where a worker process is in `main`. */
  datatype Phase =
    | Launched             // the process exists, the job is not started yet
    | Crawling             // won the start; the spider command is running
    | CommandRaised        // running the command raised
    | SpiderDone           // the command returned an exit code
    | Raised               // an exception reached the outer handler
    | Exited(code: nat)

  datatype Worker = Worker(job: JobId, won: bool, phase: Phase)

  /** A dispatcher process: how many sweeps it began, what is left of the current one, and in which
      sweep it last loaded each job. */
  datatype Sweep = Sweep(loads: nat, remaining: seq<JobId>, lastLoad: map<JobId, nat>)

  const NO_SWEEP := Sweep(0, [], map[])

  datatype Note = Note(reason: Option<string>, message: Option<string>)

  datatype Sys = Sys(
    ledger: Ledger,
    creators: map<CreatorId, Creator>,
    workers: map<WorkerId, Worker>,
    sweeps: map<DispatcherId, Sweep>)
  {
    function Jobs(): Table { ledger.jobs }

    function SweepOf(d: DispatcherId): Sweep { if d in sweeps then sweeps[d] else NO_SWEEP }
  }

  function Init(): Sys { Sys(Ledger(map[], []), map[], map[], map[]) }

  datatype Event =
    | RequestCrawl(creator: CreatorId, source: SourceId, jobType: JobType)
    | RequestRetry(creator: CreatorId, original: JobId)
    | RequestRetryUnguarded(creator: CreatorId, original: JobId, source: SourceId)
    | CheckActive(creator: CreatorId)
    | InsertJob(creator: CreatorId, id: JobId, now: Time)
    | ClaimJob(id: JobId, now: Time, lease: Lease)
    | Launch(worker: WorkerId, id: JobId)
    | StartJob(worker: WorkerId, now: Time, lease: Lease, note: Note)
    | Abort(worker: WorkerId)
    | Heartbeat(worker: WorkerId, now: Time, lease: Lease)
    | Stats(job: Option<JobId>, deltas: Counters)
    | CommandFails(worker: WorkerId)
    | SpiderExits(worker: WorkerId)
    | FinishJob(worker: WorkerId, target: Status, now: Time, note: Note)
    | FailOwnJob(worker: WorkerId, now: Time, note: Note)
    | GiveUpDispatch(id: JobId, now: Time, note: Note)
    | ReconcileJobs(now: Time, limit: Option<nat>)
    | SweepLoad(dispatcher: DispatcherId, size: int, now: Time)
    | SweepClaim(dispatcher: DispatcherId, now: Time, lease: Lease)

  // ---------------------------------------------------------------- guards and queries

  /** The guard of the retry endpoint. */
  predicate MayBeRetried(t: Table, original: JobId) {
    && original in t
    && (t[original].status.Failed? || t[original].status.Partial?)
    && t[original].retryOf.None?
    && !Retried(t, original)
  }

  function ClaimableIds(t: Table, now: Time): set<JobId> {
    set id | id in t && t[id].Claimable(now)
  }

  /** `ORDER BY queued_at NULLS FIRST, id`. */
  predicate QueuedBefore(t: Table, a: JobId, b: JobId) {
    var x := if a in t then t[a].queuedAt else None;
    var y := if b in t then t[b].queuedAt else None;
    match (x, y)
    case (None, Some(_)) => true
    case (Some(_), None) => false
    case (None, None) => a <= b
    case (Some(u), Some(v)) => u < v || (u == v && a <= b)
  }

  function QueueOrder(t: Table): (JobId, JobId) -> bool {
    (a: JobId, b: JobId) => QueuedBefore(t, a, b)
  }

  function Queue(t: Table, now: Time): seq<JobId> {
    Sort(QueueOrder(t), Ascending(ClaimableIds(t, now)))
  }

  /** A sweep asks for at least one row. */
  function SweepSize(size: int): nat { if size < 1 then 1 else size }

  function Candidates(t: Table, now: Time, size: int): seq<JobId> {
    Limit(SweepSize(size), Queue(t, now))
  }

  lemma {:induction false} QueueIsOrdered(t: Table, now: Time)
    ensures var q := Queue(t, now);
            && SortedBy(QueueOrder(t), q) && Distinct(q)
            && forall id :: id in q <==> id in ClaimableIds(t, now)
  {
    var keys := Ascending(ClaimableIds(t, now));
    assert TotalOrderOn(QueueOrder(t), keys);
    SortOrders(QueueOrder(t), keys);
    SameMembers(Queue(t, now), keys);
    RearrangementIsDistinct(keys, Queue(t, now));
  }

  // ---------------------------------------------------------------- steps

  function WithWorker(s: Sys, w: WorkerId, worker: Worker): Sys {
    s.(workers := s.workers[w := worker])
  }

  predicate InPhase(s: Sys, w: WorkerId, phase: Phase) {
    w in s.workers && s.workers[w].phase == phase
  }

  function DoInsert(s: Sys, c: CreatorId, id: JobId, now: Time): Sys {
    if c !in s.creators || !s.creators[c].Checked? || !FreshId(s.Jobs(), id) then s
    else
      var r := s.creators[c];
      s.(ledger := Create(s.ledger, id, r.source, r.jobType, r.retryOf, now, None), creators := s.creators - {c})
  }

  function DoCheck(s: Sys, c: CreatorId): Sys {
    if c !in s.creators || !s.creators[c].Requested? then s
    else
      var r := s.creators[c];
      if SourceBusy(s.Jobs(), r.source) then s.(creators := s.creators - {c})
      else s.(creators := s.creators[c := Checked(r.source, r.jobType, r.retryOf)])
  }

  function DoRequest(s: Sys, c: CreatorId, request: Creator): Sys {
    if c in s.creators then s else s.(creators := s.creators[c := request])
  }

  function DoStart(s: Sys, w: WorkerId, now: Time, lease: Lease, note: Note): Sys {
    if !InPhase(s, w, Launched) then s
    else
      var job := s.workers[w].job;
      if job !in s.Jobs() then WithWorker(s, w, Worker(job, false, Raised))
      else if !CanStart(s.Jobs(), job) then WithWorker(s, w, Worker(job, false, Exited(0)))
      else WithWorker(s.(ledger := Start(s.ledger, job, now, now, lease, Put(note.reason), note.message)),
                      w, Worker(job, true, Crawling))
  }

  function DoFinish(s: Sys, w: WorkerId, target: Status, now: Time, note: Note): Sys {
    if !InPhase(s, w, SpiderDone) && !InPhase(s, w, CommandRaised) then s
    else
      var worker := s.workers[w];
      var status := if worker.phase.CommandRaised? then Failed else target;
      var accepted := FinishVerdict(s.Jobs(), worker.job, Some(status)) == FinishedJob;
      WithWorker(s.(ledger := Finish(s.ledger, worker.job, Some(status), now, Put(note.reason), note.message)), w,
                 worker.(phase := if accepted && worker.phase.SpiderDone? then Exited(0) else Raised))
  }

  function DoFailOwn(s: Sys, w: WorkerId, now: Time, note: Note): Sys {
    if !InPhase(s, w, Raised) then s
    else
      var worker := s.workers[w];
      WithWorker(s.(ledger := FailIfActive(s.ledger, worker.job, now, Put(note.reason), note.message)),
                 w, worker.(phase := Exited(1)))
  }

  function MovePhase(s: Sys, w: WorkerId, from: Phase, to: Phase): Sys {
    if InPhase(s, w, from) then WithWorker(s, w, s.workers[w].(phase := to)) else s
  }

  function DoSweepLoad(s: Sys, d: DispatcherId, size: int, now: Time): Sys {
    var sweep := s.SweepOf(d);
    if sweep.remaining != [] then s
    else
      var found := Candidates(s.Jobs(), now, size);
      var loads := sweep.loads + 1;
      s.(sweeps := s.sweeps[d := Sweep(loads, found, sweep.lastLoad + map id | id in Members(found) :: loads)])
  }

  function DoSweepClaim(s: Sys, d: DispatcherId, now: Time, lease: Lease): Sys {
    var sweep := s.SweepOf(d);
    if sweep.remaining == [] then s
    else
      s.(ledger := Claim(s.ledger, sweep.remaining[0], now, lease),
         sweeps := s.sweeps[d := sweep.(remaining := sweep.remaining[1..])])
  }

  function Next(s: Sys, e: Event): Sys {
    match e
    case RequestCrawl(c, source, jobType) => DoRequest(s, c, Requested(source, jobType, None))
    case RequestRetry(c, original) =>
      if MayBeRetried(s.Jobs(), original)
      then DoRequest(s, c, Requested(s.Jobs()[original].source, ManualRetry, Some(original))) else s
    case RequestRetryUnguarded(c, original, source) => DoRequest(s, c, Requested(source, ManualRetry, Some(original)))
    case CheckActive(c) => DoCheck(s, c)
    case InsertJob(c, id, now) => DoInsert(s, c, id, now)
    case ClaimJob(id, now, lease) => s.(ledger := Claim(s.ledger, id, now, lease))
    case Launch(w, id) => if w in s.workers then s else WithWorker(s, w, Worker(id, false, Launched))
    case StartJob(w, now, lease, note) => DoStart(s, w, now, lease, note)
    case Abort(w) => MovePhase(s, w, Launched, Raised)
    case Heartbeat(w, now, lease) =>
      if InPhase(s, w, Crawling) then s.(ledger := CrawlJobs.Heartbeat(s.ledger, s.workers[w].job, now, lease)) else s
    case Stats(job, deltas) => s.(ledger := RecordStats(s.ledger, job, deltas))
    case CommandFails(w) => MovePhase(s, w, Crawling, CommandRaised)
    case SpiderExits(w) => MovePhase(s, w, Crawling, SpiderDone)
    case FinishJob(w, target, now, note) => DoFinish(s, w, target, now, note)
    case FailOwnJob(w, now, note) => DoFailOwn(s, w, now, note)
    case GiveUpDispatch(id, now, note) => s.(ledger := FailIfActive(s.ledger, id, now, Put(note.reason), note.message))
    case ReconcileJobs(now, limit) => s.(ledger := Reconcile(s.ledger, now, limit))
    case SweepLoad(d, size, now) => DoSweepLoad(s, d, size, now)
    case SweepClaim(d, now, lease) => DoSweepClaim(s, d, now, lease)
  }

  function Run(s: Sys, events: seq<Event>): Sys {
    if events == [] then s else Next(Run(s, events[..|events| - 1]), events[|events| - 1])
  }
}
