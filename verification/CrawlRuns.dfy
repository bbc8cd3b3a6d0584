/** Whole-run properties of the crawl-job protocol, over every interleaving. */
module CrawlRuns {
  import opened Options
  import opened Ordering
  import opened CrawlJobs
  import opened JobLedger
  import opened CrawlJobStore
  import opened CrawlProtocol

  // ---------------------------------------------------------------- what every step keeps

  ghost predicate Won(s: Sys, w: WorkerId, id: JobId) {
    w in s.workers && s.workers[w].won && s.workers[w].job == id
  }

  /** A job has at most one winning worker, and a won job is no longer pending. */
  ghost predicate WinnersAgree(s: Sys) {
    && (forall w, id | Won(s, w, id) :: id in s.Jobs() && !s.Jobs()[id].status.Pending?)
    && (forall w, w', id | Won(s, w, id) && Won(s, w', id) :: w == w')
    && (forall w | w in s.workers :: s.workers[w].won <==> !NeverStarted(s.workers[w]))
  }

  ghost predicate NeverStarted(worker: Worker) {
    !worker.won && (worker.phase.Launched? || worker.phase.Raised? || worker.phase.Exited?)
  }

  ghost predicate Good(s: Sys) {
    Coherent(s.ledger) && WinnersAgree(s)
  }

  ghost predicate LedgerKept(s: Sys, s': Sys) {
    Coherent(s'.ledger) && Evolves(s.ledger, s'.ledger)
  }

  lemma UnchangedLedger(s: Sys, s': Sys)
    requires Coherent(s.ledger) && s'.ledger == s.ledger
    ensures LedgerKept(s, s')
  {
  }

  lemma InsertStep(s: Sys, c: CreatorId, id: JobId, now: Time)
    requires Coherent(s.ledger)
    ensures LedgerKept(s, DoInsert(s, c, id, now))
  {
    hide Create, Coherent, Evolves;
    UnchangedLedger(s, s);
    if c in s.creators && s.creators[c].Checked? && FreshId(s.Jobs(), id) {
      CreateKeeps(s.ledger, id, s.creators[c].source, s.creators[c].jobType, s.creators[c].retryOf, now, None);
    }
  }

  lemma StartStep(s: Sys, w: WorkerId, now: Time, lease: Lease, note: Note)
    requires Coherent(s.ledger)
    ensures LedgerKept(s, DoStart(s, w, now, lease, note))
  {
    hide Start, Coherent, Evolves;
    UnchangedLedger(s, s);
    if InPhase(s, w, Launched) {
      StartKeeps(s.ledger, s.workers[w].job, now, now, lease, Put(note.reason), note.message);
    }
  }

  lemma {:induction false} FinishStep(s: Sys, w: WorkerId, target: Status, now: Time, note: Note)
    requires Coherent(s.ledger)
    ensures LedgerKept(s, DoFinish(s, w, target, now, note))
  {
    hide Finish, FinishVerdict, Coherent, Evolves;
    UnchangedLedger(s, s);
    if w in s.workers {
      var status := if s.workers[w].phase.CommandRaised? then Failed else target;
      FinishKeeps(s.ledger, s.workers[w].job, Some(status), now, Put(note.reason), note.message);
    }
  }

  lemma FailIfActiveKeeps(l: Ledger, id: JobId, now: Time, note: Note)
    requires Coherent(l)
    ensures var l' := FailIfActive(l, id, now, Put(note.reason), note.message); Coherent(l') && Evolves(l, l')
  {
    hide Finish;
    FinishKeeps(l, id, Some(Failed), now, Put(note.reason), note.message);
  }

  lemma {:induction false} WorkerStep(s: Sys, e: Event)
    requires Coherent(s.ledger) && (e.StartJob? || e.Heartbeat? || e.FinishJob? || e.FailOwnJob?)
    ensures LedgerKept(s, Next(s, e))
  {
    hide DoStart, DoFinish, FailIfActive, Coherent, Evolves;
    UnchangedLedger(s, s);
    match e
    case StartJob(w, now, lease, note) => StartStep(s, w, now, lease, note);
    case Heartbeat(w, now, lease) =>
      if w in s.workers { HeartbeatKeeps(s.ledger, s.workers[w].job, now, lease); }
    case FinishJob(w, target, now, note) => FinishStep(s, w, target, now, note);
    case FailOwnJob(w, now, note) =>
      if w in s.workers { FailIfActiveKeeps(s.ledger, s.workers[w].job, now, note); }
  }

  lemma {:induction false} ServerStep(s: Sys, e: Event)
    requires Coherent(s.ledger)
    requires e.ClaimJob? || e.Stats? || e.GiveUpDispatch? || e.ReconcileJobs? || e.SweepClaim?
    ensures LedgerKept(s, Next(s, e))
  {
    hide Claim, RecordStats, FailIfActive, ExpireAll, ReconcileSelection, Coherent, Evolves;
    UnchangedLedger(s, s);
    match e
    case ClaimJob(id, now, lease) => ClaimKeeps(s.ledger, id, now, lease);
    case Stats(job, deltas) => RecordStatsKeeps(s.ledger, job, deltas);
    case GiveUpDispatch(id, now, note) => FailIfActiveKeeps(s.ledger, id, now, note);
    case ReconcileJobs(now, limit) => ExpireAllKeeps(s.ledger, ReconcileSelection(s.Jobs(), now, limit), now);
    case SweepClaim(d, now, lease) =>
      if s.SweepOf(d).remaining != [] { ClaimKeeps(s.ledger, s.SweepOf(d).remaining[0], now, lease); }
  }

  lemma {:induction false} LedgerStep(s: Sys, e: Event)
    requires Coherent(s.ledger)
    ensures LedgerKept(s, Next(s, e))
  {
    if e.StartJob? || e.Heartbeat? || e.FinishJob? || e.FailOwnJob? {
      WorkerStep(s, e);
    } else if e.ClaimJob? || e.Stats? || e.GiveUpDispatch? || e.ReconcileJobs? || e.SweepClaim? {
      ServerStep(s, e);
    } else if e.InsertJob? {
      InsertStep(s, e.creator, e.id, e.now);
    } else {
      UnchangedLedger(s, Next(s, e));
    }
  }

  /** A step that leaves the workers' winnings alone keeps them in agreement with the rows. */
  lemma SameWinners(s: Sys, s': Sys)
    requires WinnersAgree(s) && Coherent(s.ledger) && Evolves(s.ledger, s'.ledger)
    requires forall w | w in s'.workers :: s'.workers[w].won <==> !NeverStarted(s'.workers[w])
    requires forall w, id | Won(s', w, id) :: Won(s, w, id)
    ensures WinnersAgree(s')
  {
  }

  lemma StartKeepsWinners(s: Sys, w: WorkerId, now: Time, lease: Lease, note: Note)
    requires Good(s) && InPhase(s, w, Launched) && CanStart(s.Jobs(), s.workers[w].job)
    ensures WinnersAgree(DoStart(s, w, now, lease, note))
  {
    var s' := DoStart(s, w, now, lease, note);
    var job := s.workers[w].job;
    StartStep(s, w, now, lease, note);
    assert forall v :: !Won(s, v, job);
    assert forall v, id | Won(s', v, id) :: if v == w then id == job else Won(s, v, id);
  }

  lemma {:induction false} StepKeepsGood(s: Sys, e: Event)
    requires Good(s)
    ensures Good(Next(s, e)) && Evolves(s.ledger, Next(s, e).ledger)
  {
    hide Coherent, Evolves, DoStart, DoFinish, DoFailOwn, DoInsert, DoCheck, DoSweepLoad, DoSweepClaim;
    var s' := Next(s, e);
    LedgerStep(s, e);
    if e.StartJob? && InPhase(s, e.worker, Launched) && CanStart(s.Jobs(), s.workers[e.worker].job) {
      StartKeepsWinners(s, e.worker, e.now, e.lease, e.note);
    } else {
      StepKeepsWinners(s, e);
      SameWinners(s, s');
    }
  }

  lemma StepKeepsWinners(s: Sys, e: Event)
    requires Good(s)
    requires !(e.StartJob? && InPhase(s, e.worker, Launched) && CanStart(s.Jobs(), s.workers[e.worker].job))
    ensures forall w | w in Next(s, e).workers ::
              Next(s, e).workers[w].won <==> !NeverStarted(Next(s, e).workers[w])
    ensures forall w, id | Won(Next(s, e), w, id) :: Won(s, w, id)
  {
  }

  lemma {:induction false} RunKeepsGood(s: Sys, events: seq<Event>)
    requires Good(s)
    ensures Good(Run(s, events)) && Evolves(s.ledger, Run(s, events).ledger)
  {
    hide Next, Coherent, WinnersAgree;
    if events != [] {
      var init := Run(s, events[..|events| - 1]);
      RunKeepsGood(s, events[..|events| - 1]);
      StepKeepsGood(init, events[|events| - 1]);
      EvolvesTransitively(s.ledger, init.ledger, Run(s, events).ledger);
    }
  }

  lemma OnlyInsertsAddRows(s: Sys, e: Event)
    requires !e.InsertJob?
    ensures Next(s, e).Jobs().Keys == s.Jobs().Keys
  {
    if e.ReconcileJobs? {
      ExpireAllKeepsKeys(s.ledger, ReconcileSelection(s.Jobs(), e.now, e.limit), e.now);
    }
  }
}
