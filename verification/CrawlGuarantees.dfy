/** The promises of the crawl-job protocol, for every run from the empty table. */
module CrawlGuarantees {
  import opened Options
  import opened Ordering
  import opened CrawlJobs
  import opened JobLedger
  import opened CrawlJobStore
  import opened CrawlProtocol
  import opened CrawlRuns

  lemma ReachableIsGood(events: seq<Event>)
    ensures Good(Run(Init(), events))
  {
    RunKeepsGood(Init(), events);
  }

  // ---------------------------------------------------------------- mutex and forward-only rows

  /** In every interleaving a source has at most one pending or running job. */
  lemma {:induction false} SourceMutex(events: seq<Event>, a: JobId, b: JobId)
    ensures var t := Run(Init(), events).Jobs();
            a in t && b in t && t[a].Active() && t[b].Active() && t[a].source == t[b].source ==> a == b
  {
    ReachableIsGood(events);
    var t := Run(Init(), events).Jobs();
    assert a in t && b in t && t[a].Active() && t[b].Active() && t[a].source == t[b].source ==>
        ActiveOn(t, a, t[a].source) && ActiveOn(t, b, t[a].source);
  }

  /** A finished job keeps its status through every continuation, and a started one is never pending again. */
  lemma {:induction false} StatusesAreAbsorbing(before: seq<Event>, after: seq<Event>, id: JobId)
    ensures var t := Run(Init(), before).Jobs();
            var t' := Run(Run(Init(), before), after).Jobs();
            id in t ==>
              && id in t'
              && t'[id].source == t[id].source && t'[id].retryOf == t[id].retryOf
              && (t[id].status.Final() ==> t'[id].status == t[id].status)
              && (t[id].status.Running? ==> !t'[id].status.Pending?)
  {
    ReachableIsGood(before);
    RunKeepsGood(Run(Init(), before), after);
  }

  // ---------------------------------------------------------------- execution

  /** However often a job is claimed and launched, one start succeeds at most, for one worker at most. */
  lemma {:induction false} ExecutedAtMostOnce(events: seq<Event>, id: JobId, w: WorkerId, w': WorkerId)
    ensures var s := Run(Init(), events);
            && Starts(s.ledger.log, id) <= 1
            && (Won(s, w, id) && Won(s, w', id) ==> w == w')
  {
    ReachableIsGood(events);
    var s := Run(Init(), events);
    if id in s.Jobs() {
      assert Agrees(s.ledger, id);
    } else {
      NoHistory(s.ledger.log, id);
    }
  }

  /** Steps taken in the name of one worker. */
  predicate OfWorker(e: Event, w: WorkerId) {
    match e
    case Launch(v, _) => v == w
    case StartJob(v, _, _, _) => v == w
    case Abort(v) => v == w
    case Heartbeat(v, _, _) => v == w
    case CommandFails(v) => v == w
    case SpiderExits(v) => v == w
    case FinishJob(v, _, _, _) => v == w
    case FailOwnJob(v, _, _) => v == w
    case _ => false
  }

  /** A worker that loses the start exits with code 0, and neither the start nor anything it
      could do later changes the table. */
  lemma {:induction false} LosingWorkerIsInert(s: Sys, w: WorkerId, now: Time, lease: Lease, note: Note, between: seq<Event>, e: Event)
    requires InPhase(s, w, Launched) && s.workers[w].job in s.Jobs() && !CanStart(s.Jobs(), s.workers[w].job)
    requires OfWorker(e, w)
    ensures var s1 := Next(s, StartJob(w, now, lease, note));
            var s2 := Run(s1, between);
            && s1 == s.(workers := s.workers[w := Worker(s.workers[w].job, false, Exited(0))])
            && Next(s2, e) == s2
  {
    ExitedStaysExited(Next(s, StartJob(w, now, lease, note)), w, between);
  }

  lemma {:induction false} ExitedStaysExited(s: Sys, w: WorkerId, events: seq<Event>)
    requires w in s.workers && s.workers[w].phase.Exited?
    ensures var s' := Run(s, events); w in s'.workers && s'.workers[w] == s.workers[w]
  {
    hide Next;
    if events != [] {
      ExitedStaysExited(s, w, events[..|events| - 1]);
      StepKeepsWorkers(Run(s, events[..|events| - 1]), events[|events| - 1], w);
    }
  }

  /** The status a worker finishes with: failed if its command raised. */
  function Reported(worker: Worker, target: Status): Status {
    if worker.phase.CommandRaised? then Failed else target
  }

  /** A worker whose job was finished behind its back, whether its command returned or raised:
      finishing is refused unless it repeats the status the row already has, a refusal leaves every row
      as it is, and the failure handler that follows, whatever happens in between, changes nothing either. */
  lemma {:induction false} LateWorkerCannotOverturn(s: Sys, w: WorkerId, target: Status, now: Time, note: Note,
                                 between: seq<Event>, later: Time, note': Note)
    requires Good(s) && (InPhase(s, w, SpiderDone) || InPhase(s, w, CommandRaised))
    requires s.workers[w].job in s.Jobs() && s.Jobs()[s.workers[w].job].status.Final()
    ensures var id := s.workers[w].job;
            var repeats := Reported(s.workers[w], target) == s.Jobs()[id].status;
            var s1 := Next(s, FinishJob(w, target, now, note));
            var s2 := Run(s1, between);
            && id in s1.Jobs() && s1.Jobs()[id].status == s.Jobs()[id].status
            && (s1.ledger == s.ledger <==> !repeats)
            && InPhase(s1, w, if repeats && InPhase(s, w, SpiderDone) then Exited(0) else Phase.Raised)
            && Next(s2, FailOwnJob(w, later, note')).ledger == s2.ledger
  {
    var s1 := DoFinish(s, w, target, now, note);
    assert Next(s, FinishJob(w, target, now, note)) == s1;
    hide Next, DoFinish;
    FinishOfFinalJob(s, w, target, now, note);
    StepKeepsGood(s, FinishJob(w, target, now, note));
    RunKeepsGood(s1, between);
    WorkerKeepsJob(s1, w, between);
    FailureOfFinalJob(Run(s1, between), w, later, note');
  }

  lemma FailureOfFinalJob(s: Sys, w: WorkerId, now: Time, note: Note)
    requires w in s.workers && s.workers[w].job in s.Jobs() && s.Jobs()[s.workers[w].job].status.Final()
    ensures Next(s, FailOwnJob(w, now, note)).ledger == s.ledger
  {
  }

  lemma FinishOfFinalJob(s: Sys, w: WorkerId, target: Status, now: Time, note: Note)
    requires InPhase(s, w, SpiderDone) || InPhase(s, w, CommandRaised)
    requires s.workers[w].job in s.Jobs() && s.Jobs()[s.workers[w].job].status.Final()
    ensures var id := s.workers[w].job;
            var repeats := Reported(s.workers[w], target) == s.Jobs()[id].status;
            var s1 := DoFinish(s, w, target, now, note);
            && id in s1.Jobs() && s1.Jobs()[id].status == s.Jobs()[id].status
            && (s1.ledger == s.ledger <==> !repeats)
            && s1.workers == s.workers[w := s.workers[w].(phase :=
                 if repeats && InPhase(s, w, SpiderDone) then Exited(0) else Phase.Raised)]
  {
    var id := s.workers[w].job;
    var status := Reported(s.workers[w], target);
    assert FinishVerdict(s.Jobs(), id, Some(status)) == FinishedJob <==> status == s.Jobs()[id].status;
    assert |Finish(s.ledger, id, Some(status), now, Put(note.reason), note.message).log| ==
        |s.ledger.log| + if status == s.Jobs()[id].status then 1 else 0;
  }

  lemma {:induction false} WorkerKeepsJob(s: Sys, w: WorkerId, events: seq<Event>)
    requires w in s.workers
    ensures var s' := Run(s, events); w in s'.workers && s'.workers[w].job == s.workers[w].job
  {
    hide Next;
    if events != [] {
      WorkerKeepsJob(s, w, events[..|events| - 1]);
      StepKeepsWorkers(Run(s, events[..|events| - 1]), events[|events| - 1], w);
    }
  }

  lemma StepKeepsWorkers(s: Sys, e: Event, w: WorkerId)
    requires w in s.workers
    ensures var s' := Next(s, e); w in s'.workers && s'.workers[w].job == s.workers[w].job
    ensures s.workers[w].phase.Exited? ==> Next(s, e).workers[w] == s.workers[w]
  {
    hide Create, Claim, Start, CrawlJobs.Heartbeat, RecordStats, Finish, FailIfActive, Reconcile, Candidates;
  }

  // ---------------------------------------------------------------- leases

  /** The lease columns in every reachable state. */
  lemma {:induction false} LeasesAreCoherent(events: seq<Event>, id: JobId)
    ensures var s := Run(Init(), events);
            id in s.Jobs() ==>
              var job := s.Jobs()[id];
              var last := LastEntry(s.ledger.log, id);
              && job.timeoutAt == job.leaseExpiresAt == LeaseFrom(last)
              && (job.status.Pending? ==> (job.timeoutAt.Some? <==> job.pickedAt.Some?))
              && (job.status.Running? ==>
                    && last.Some? && (last.value.change.Started? || last.value.change.Beat?)
                    && job.heartbeatAt == Some(last.value.at)
                    && job.timeoutAt == Some(last.value.at + last.value.change.lease))
              && (job.status.Final() ==> job.timeoutAt == None)
  {
    ReachableIsGood(events);
    var s := Run(Init(), events);
    if id in s.Jobs() {
      assert Agrees(s.ledger, id);
    }
  }

  /** A reconcile only fails jobs that are running and whose full lease has passed since the last start
      or heartbeat, and leaves every other row as it is, pending ones included.  Without a limit it
      fails all of them; with a limit as many as it allows, and none that lapsed later than one it passed over. */
  lemma {:induction false} ReconcileNeedsAFullLease(events: seq<Event>, now: Time, limit: Option<nat>, id: JobId)
    ensures var s := Run(Init(), events);
            var t' := Next(s, ReconcileJobs(now, limit)).Jobs();
            id in s.Jobs() ==>
              var lapsed := s.Jobs()[id].status.Running? && LeaseOver(LastEntry(s.ledger.log, id), now);
              var selected := id in ReconcileSelection(s.Jobs(), now, limit);
              && id in t' && t'[id] == (if selected then ExpiredRow(s.Jobs()[id], now) else s.Jobs()[id])
              && (selected ==> lapsed)
              && (limit.None? && lapsed ==> selected)
              && (lapsed && !selected ==>
                    forall other | other in ReconcileSelection(s.Jobs(), now, limit) :: LapsedEarlier(s.Jobs(), other, id))
  {
    hide Run, Coherent, ExpireAll, ReconcileSelection, LastEntry;
    var s := Run(Init(), events);
    LeasesAreCoherent(events, id);
    SelectionIsEarliestLapsed(s.Jobs(), now, limit);
    ExpireAllIsPointwise(s.ledger, ReconcileSelection(s.Jobs(), now, limit), now);
  }

  // ---------------------------------------------------------------- creation

  /** A creation that nothing interrupts, of a retry or not, succeeds exactly when no committed row of
      its source is active and, for a retry, the original exists and was not retried before. */
  lemma {:induction false} CreationLooksAtCommittedRows(s: Sys, c: CreatorId, id: JobId, now: Time)
    requires c in s.creators && s.creators[c].Requested? && FreshId(s.Jobs(), id)
    ensures var r := s.creators[c];
            id in Next(Next(s, CheckActive(c)), InsertJob(c, id, now)).Jobs() <==>
              !SourceBusy(s.Jobs(), r.source)
              && (r.retryOf.Some? ==> r.retryOf.value in s.Jobs() && !Retried(s.Jobs(), r.retryOf.value))
  {
  }

  /** The reconcile inside a creation is not visible to the check of the same creation: a lapsed job
      still blocks its source, until a reconcile has committed. */
  lemma {:induction false} LapsedJobBlocksUntilReconciled(s: Sys, c: CreatorId, id: JobId, lapsed: JobId, now: Time)
    requires Good(s) && c in s.creators && s.creators[c].Requested? && FreshId(s.Jobs(), id)
    requires ActiveOn(s.Jobs(), lapsed, s.creators[c].source) && s.Jobs()[lapsed].Lapsed(now)
    ensures id !in Next(Next(s, CheckActive(c)), InsertJob(c, id, now)).Jobs()
    ensures var s' := Next(s, ReconcileJobs(now, None));
            var r := s.creators[c];
            id in Next(Next(s', CheckActive(c)), InsertJob(c, id, now)).Jobs() <==>
              (r.retryOf.Some? ==> r.retryOf.value in s.Jobs() && !Retried(s.Jobs(), r.retryOf.value))
  {
    hide DoCheck, DoInsert, Reconcile, Coherent, WinnersAgree, Evolves;
    var s' := Next(s, ReconcileJobs(now, None));
    CreationLooksAtCommittedRows(s, c, id, now);
    ReconcileFreesTheSource(s.ledger, lapsed, s.creators[c].source, now);
    OnlyInsertsAddRows(s, ReconcileJobs(now, None));
    StepKeepsGood(s, ReconcileJobs(now, None));
    SameRetries(s, s');
    CreationLooksAtCommittedRows(s', c, id, now);
  }

  lemma SameRetries(s: Sys, s': Sys)
    requires Evolves(s.ledger, s'.ledger) && s'.Jobs().Keys == s.Jobs().Keys
    ensures forall original :: Retried(s'.Jobs(), original) <==> Retried(s.Jobs(), original)
  {
    assert forall id, original :: RetryOf(s'.Jobs(), id, original) <==> RetryOf(s.Jobs(), id, original);
  }

  lemma ReconcileFreesTheSource(l: Ledger, lapsed: JobId, source: SourceId, now: Time)
    requires Coherent(l) && ActiveOn(l.jobs, lapsed, source) && l.jobs[lapsed].Lapsed(now)
    ensures !SourceBusy(Reconcile(l, now, None).jobs, source)
  {
    var t' := Reconcile(l, now, None).jobs;
    ReconcileExpiresExactlyTheLapsed(l, now);
    assert forall k | ActiveOn(t', k, source) :: ActiveOn(l.jobs, k, source) && k != lapsed;
  }
}
