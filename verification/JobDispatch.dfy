/** The processes that drive the job service: the dispatcher, its periodic sweep, and the worker. */
module JobDispatch {
  import opened Options
  import opened Ordering
  import opened CrawlJobs
  import opened JobLedger
  import opened CrawlJobStore
  import opened CrawlProtocol

  const DEFAULT_DISPATCH_RETRY_ATTEMPTS := 3

  datatype DispatchResult =
    | NotClaimed                // somebody else holds the job
    | LaunchedAt(attempt: nat)
    | Abandoned                 // every attempt failed; the job was failed
    | InvalidCommand            // raised between the claim and the first attempt

  /** Claims the job, then tries to launch its worker; `launches(n)` is the outcome of attempt n. */
  method Dispatch(store: Store, id: JobId, commandOk: bool, launches: nat -> bool, maxAttempts: int,
                  claimAt: Time, failAt: Time, note: Note)
    returns (result: DispatchResult)
    requires Coherent(store.State())
    modifies store
    ensures result.NotClaimed? <==> !CanClaim(old(store.jobs), id, claimAt)
    ensures result.NotClaimed? ==> store.State() == old(store.State())
    ensures result.InvalidCommand? ==> !commandOk
    ensures result.LaunchedAt? ==>
              && commandOk && 1 <= result.attempt <= SweepSize(maxAttempts) && launches(result.attempt)
              && forall n | 1 <= n < result.attempt :: !launches(n)
    ensures result.LaunchedAt? || result.InvalidCommand? ==>
              store.State() == Claim(old(store.State()), id, claimAt, DEFAULT_PENDING_LEASE_SECONDS)
    ensures result.Abandoned? ==>
              && commandOk && (forall n | 1 <= n <= SweepSize(maxAttempts) :: !launches(n))
              && id in store.jobs && store.jobs[id].status == Failed && store.jobs[id].failureReason == note.reason
    ensures id in store.jobs ==> !store.jobs[id].Claimable(claimAt)
    ensures forall k | k in old(store.jobs) && k != id :: k in store.jobs && store.jobs[k] == old(store.jobs)[k]
    ensures store.jobs.Keys == old(store.jobs).Keys
    ensures Coherent(store.State()) && Evolves(old(store.State()), store.State())
  {
    hide Coherent, Evolves;
    ghost var before := store.State();
    var reply := store.ClaimPendingJob(id, claimAt);
    if reply.Nothing? {
      return NotClaimed;
    }
    ghost var claimed := store.State();
    if !commandOk {
      return InvalidCommand;
    }
    var attempts := if maxAttempts < 1 then 1 else maxAttempts;
    var attempt := 1;
    while attempt <= attempts
      invariant 1 <= attempt <= attempts + 1
      invariant store.State() == claimed
      invariant forall n | 1 <= n < attempt :: !launches(n)
    {
      if launches(attempt) {
        return LaunchedAt(attempt);
      }
      attempt := attempt + 1;
    }
    store.FailJobIfActive(id, failAt, Put(note.reason), note.message);
    EvolvesTransitively(before, claimed, store.State());
    return Abandoned;
  }

  /** One sweep without interference: every candidate is dispatched once, in queue order, and none of
      them is claimable at the time of its claim afterwards; a candidate counts as abandoned exactly when its dispatch raised. */
  method DispatchPendingJobs(store: Store, limit: int, now: Time, claimAt: JobId -> Time, failAt: JobId -> Time,
                             commandOk: JobId -> bool, launches: JobId -> nat -> bool, note: Note)
    returns (scanned: nat, handoffs: nat, abandoned: nat)
    requires Coherent(store.State()) && forall id :: now <= claimAt(id)
    modifies store
    ensures scanned == |Candidates(old(store.jobs), now, limit)| && handoffs + abandoned == scanned
    ensures abandoned == InvalidCommands(commandOk, Candidates(old(store.jobs), now, limit))
    ensures forall id | id in Candidates(old(store.jobs), now, limit) ::
              id in store.jobs && !store.jobs[id].Claimable(claimAt(id))
    ensures forall id | id in old(store.jobs) && id !in Candidates(old(store.jobs), now, limit) ::
              id in store.jobs && store.jobs[id] == old(store.jobs)[id]
    ensures Coherent(store.State()) && Evolves(old(store.State()), store.State())
  {
    hide Coherent, Evolves, Candidates, Queue;
    scanned, handoffs, abandoned := 0, 0, 0;
    EvolvesReflexively(store.State());
    ghost var before := store.State();
    var candidates := Candidates(store.jobs, now, limit);
    CandidatesAreClaimable(store.jobs, now, limit);
    assert InvalidCommands(commandOk, candidates[..0]) == 0 && Members(candidates[..0]) == {};
    hide InvalidCommands, Claim, SweepSize;
    while scanned < |candidates|
      invariant 0 <= scanned <= |candidates| && handoffs + abandoned == scanned
      invariant abandoned == InvalidCommands(commandOk, candidates[..scanned])
      invariant store.jobs.Keys == before.jobs.Keys
      invariant forall id | id in Members(candidates[..scanned]) :: id in store.jobs && !store.jobs[id].Claimable(claimAt(id))
      invariant forall id | id in before.jobs && id !in Members(candidates[..scanned]) :: store.jobs[id] == before.jobs[id]
      invariant Coherent(store.State()) && Evolves(before, store.State())
    {
      var id := candidates[scanned];
      ghost var mid := store.State();
      SnocFacts(commandOk, candidates, scanned);
      assert id in candidates && CanClaim(before.jobs, id, claimAt(id));
      assert CanClaim(store.jobs, id, claimAt(id));
      var result := Dispatch(store, id, commandOk(id), launches(id), DEFAULT_DISPATCH_RETRY_ATTEMPTS, claimAt(id), failAt(id), note);
      EvolvesTransitively(before, mid, store.State());
      assert result.InvalidCommand? <==> !commandOk(id);
      if result.InvalidCommand? {
        abandoned := abandoned + 1;
      } else {
        handoffs := handoffs + 1;
      }
      scanned := scanned + 1;
    }
    assert candidates[..scanned] == candidates;
  }

  lemma CandidatesAreClaimable(t: Table, now: Time, limit: int)
    ensures var found := Candidates(t, now, limit);
            Distinct(found) && forall id, later: Time | id in found && now <= later :: CanClaim(t, id, later)
  {
    QueueIsOrdered(t, now);
    PrefixOfOrdering(QueueOrder(t), Queue(t, now), Candidates(t, now, limit));
  }

  /** How many of the jobs have a command that cannot be built. */
  function InvalidCommands(commandOk: JobId -> bool, ids: seq<JobId>): nat {
    if ids == [] then 0
    else InvalidCommands(commandOk, ids[..|ids| - 1]) + if commandOk(ids[|ids| - 1]) then 0 else 1
  }

  lemma SnocFacts(commandOk: JobId -> bool, ids: seq<JobId>, n: nat)
    requires Distinct(ids) && n < |ids|
    ensures ids[n] !in Members(ids[..n])
    ensures Members(ids[..n + 1]) == Members(ids[..n]) + {ids[n]}
    ensures InvalidCommands(commandOk, ids[..n + 1]) == InvalidCommands(commandOk, ids[..n]) + if commandOk(ids[n]) then 0 else 1
  {
    assert ids[..n + 1] == ids[..n] + [ids[n]];
    assert ids[..n + 1][..n] == ids[..n];
  }

  // ---------------------------------------------------------------- the worker process

  /** What the other processes may do to the table between two steps of this one: anything the
      protocol allows. */
  method OtherProcesses(store: Store)
    requires Coherent(store.State())
    modifies store
    ensures Coherent(store.State()) && Evolves(old(store.State()), store.State())
  {
    EvolvesReflexively(store.State());
  }

  datatype CommandOutcome = CommandRaises | CommandExits

  /** A committed step of a process: the ledger before and after. */
  datatype Step = Step(before: Ledger, after: Ledger)

  /** The clock readings of a worker: each heartbeat and each of its other steps has its own. */
  datatype WorkerClock = WorkerClock(startAt: Time, beatAt: nat -> Time, finishAt: Time, failAt: Time)

  /** The part of the worker that runs after it has won the start; false means it raised.  `finish` is
      its attempt to finish the job: of a running job it stores the target if the command exited, and
      failed if it raised.  `renewals` are its heartbeats, each a renewal of the running lease. */
  method CrawlAndFinish(store: Store, id: JobId, beats: nat, outcome: CommandOutcome, target: Status, clock: WorkerClock, note: Note)
    returns (finished: bool, ghost finish: Step, ghost renewals: seq<Step>)
    requires Coherent(store.State()) && target.Final()
    modifies store
    ensures finished ==> outcome.CommandExits? && id in store.jobs && store.jobs[id].status == target
    ensures id in finish.before.jobs && finish.before.jobs[id].status == Running && outcome.CommandExits? ==> finished
    ensures id in finish.before.jobs && finish.before.jobs[id].status == Running && outcome.CommandRaises? ==>
              !finished && id in store.jobs && store.jobs[id].status == Failed
    ensures finish.after == store.State() && Evolves(old(store.State()), finish.before)
    ensures |renewals| == beats
    ensures forall k | 0 <= k < beats ::
              renewals[k].after == CrawlJobs.Heartbeat(renewals[k].before, id, clock.beatAt(k), DEFAULT_RUNNING_LEASE_SECONDS)
    ensures Coherent(store.State()) && Evolves(old(store.State()), store.State())
  {
    hide Coherent, Evolves, CrawlJobs.Heartbeat;
    ghost var begin := store.State();
    EvolvesReflexively(begin);
    ghost var mid := begin;
    renewals := [];
    for beat := 0 to beats
      invariant Coherent(store.State()) && Evolves(begin, store.State())
      invariant |renewals| == beat
      invariant forall k | 0 <= k < beat ::
          renewals[k].after == CrawlJobs.Heartbeat(renewals[k].before, id, clock.beatAt(k), DEFAULT_RUNNING_LEASE_SECONDS)
    {
      mid := store.State();
      OtherProcesses(store);
      EvolvesTransitively(begin, mid, store.State());
      mid := store.State();
      var _ := store.HeartbeatJob(id, clock.beatAt(beat));
      renewals := renewals + [Step(mid, store.State())];
      EvolvesTransitively(begin, mid, store.State());
    }
    mid := store.State();
    OtherProcesses(store);
    EvolvesTransitively(begin, mid, store.State());
    mid := store.State();
    var status := if outcome.CommandRaises? then Failed else target;
    var verdict := store.FinishJob(id, Some(status), clock.finishAt, Put(note.reason), note.message);
    EvolvesTransitively(begin, mid, store.State());
    finish := Step(mid, store.State());
    finished := verdict == FinishedJob && outcome.CommandExits?;
  }

  /** `main` of a worker launched for a job.  `start` is its attempt to start the job and `finish` its
      attempt to finish it, if it came to that.  A worker tries to start exactly the job it was launched
      for.  A worker that lost the start exits with code 0 right after an attempt that changed nothing;
      exit code 1 leaves the job finished or absent. */
  method WorkerMain(store: Store, id: JobId, source: SourceId, jobType: JobType, sourceKnown: bool, spiderKnown: bool,
                    beats: nat, outcome: CommandOutcome, target: Status, clock: WorkerClock, note: Note)
    returns (code: nat, won: bool, ghost start: Option<Step>, ghost finish: Option<Step>)
    requires Coherent(store.State()) && target.Final()
    modifies store
    ensures code <= 1
    ensures id in old(store.jobs) ==>
              (start.Some? <==>
                 && sourceKnown && spiderKnown
                 && old(store.jobs)[id].source == source && old(store.jobs)[id].jobType == jobType)
    ensures start.Some? ==> sourceKnown && spiderKnown
    ensures won <==> start.Some? && CanStart(start.value.before.jobs, id)
    ensures won ==> id in start.value.after.jobs && start.value.after.jobs[id].status.Running?
    ensures won <==> finish.Some?
    ensures code == 1 && id in store.jobs ==> store.jobs[id].status.Final()
    ensures code == 0 && won ==> id in store.jobs && store.jobs[id].status == target
    ensures code == 0 && !won ==> start.Some? && start.value.after == start.value.before
    ensures start.Some? && !won ==> code == 0
    ensures finish.Some? && outcome.CommandExits? && id in finish.value.before.jobs && finish.value.before.jobs[id].status == Running ==>
              code == 0
    ensures Coherent(store.State()) && Evolves(old(store.State()), store.State())
  {
    hide Coherent;
    won, start, finish := false, None, None;
    ghost var begin := store.State();
    OtherProcesses(store);
    hide Evolves;
    if sourceKnown && spiderKnown && id in store.jobs
       && store.jobs[id].source == source && store.jobs[id].jobType == jobType
    {
      ghost var mid := store.State();
      OtherProcesses(store);
      EvolvesTransitively(begin, mid, store.State());
      mid := store.State();
      var reply := store.StartJob(id, None, clock.startAt, Put(None), note.message);
      start := Some(Step(mid, store.State()));
      EvolvesTransitively(begin, mid, store.State());
      if reply.Nothing? {
        return 0, false, start, None;
      }
      won := true;
      mid := store.State();
      var finished;
      ghost var step, renewals;
      finished, step, renewals := CrawlAndFinish(store, id, beats, outcome, target, clock, note);
      finish := Some(step);
      EvolvesTransitively(begin, mid, store.State());
      if finished {
        return 0, true, start, finish;
      }
    }
    ghost var mid := store.State();
    OtherProcesses(store);
    EvolvesTransitively(begin, mid, store.State());
    mid := store.State();
    store.FailJobIfActive(id, clock.failAt, Put(note.reason), note.message);
    EvolvesTransitively(begin, mid, store.State());
    code := 1;
  }
}
