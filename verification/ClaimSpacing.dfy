/** Successive claims of one job are at least the earlier claim's lease apart, in every run. */
module ClaimSpacing {
  import opened Options
  import opened CrawlJobs
  import opened JobLedger
  import opened CrawlProtocol
  import opened CrawlRuns

  ghost predicate ClaimsSpaced(log: seq<Entry>) {
    forall i, j | 0 <= i < j < |log| && log[i].change.Claimed? && log[j].change.Claimed? && log[i].job == log[j].job ::
      log[i].at + log[i].change.lease <= log[j].at
  }

  /** While a job is pending, its lease reaches at least as far as every claim of it promised. */
  ghost predicate ClaimsHold(l: Ledger) {
    forall i | 0 <= i < |l.log| && l.log[i].change.Claimed? && l.log[i].job in l.jobs && l.jobs[l.log[i].job].status.Pending? ::
      && l.jobs[l.log[i].job].timeoutAt.Some?
      && l.log[i].at + l.log[i].change.lease <= l.jobs[l.log[i].job].timeoutAt.value
  }

  ghost predicate Spacing(l: Ledger) {
    ClaimsSpaced(l.log) && ClaimsHold(l)
  }

  /** A change that claims nothing and leaves the leases of pending rows alone. */
  ghost predicate Quiet(l: Ledger, l': Ledger) {
    && l.log <= l'.log
    && (forall i | |l.log| <= i < |l'.log| :: !l'.log[i].change.Claimed?)
    && (forall id | id in l.jobs && id in l'.jobs && l'.jobs[id].status.Pending? ::
          l.jobs[id].status.Pending? && l'.jobs[id].timeoutAt == l.jobs[id].timeoutAt)
  }

  lemma QuietKeepsSpacing(l: Ledger, l': Ledger)
    requires Coherent(l) && Spacing(l) && Quiet(l, l')
    ensures Spacing(l')
  {
    assert forall i | 0 <= i < |l'.log| && l'.log[i].change.Claimed? :: i < |l.log| && l'.log[i] == l.log[i];
  }

  lemma ClaimKeepsSpacing(l: Ledger, id: JobId, now: Time, lease: Lease)
    requires Coherent(l) && Spacing(l)
    ensures Spacing(Claim(l, id, now, lease))
  {
    if CanClaim(l.jobs, id, now) {
      var l' := Claim(l, id, now, lease);
      assert Agrees(l, id);
      assert forall i | 0 <= i < |l.log| && l.log[i].change.Claimed? && l.log[i].job == id ::
          l.log[i].at + l.log[i].change.lease <= now;
      assert forall i | 0 <= i < |l.log| :: l'.log[i] == l.log[i];
    }
  }

  lemma {:induction false} ExpireAllIsQuiet(l: Ledger, ids: seq<JobId>, now: Time)
    ensures Quiet(l, ExpireAll(l, ids, now))
  {
    if ids != [] {
      ExpireAllIsQuiet(l, ids[..|ids| - 1], now);
    }
  }

  /** A heartbeat comes from a worker whose job is no longer pending. */
  lemma HeartbeatIsQuiet(s: Sys, e: Event)
    requires Good(s) && e.Heartbeat?
    ensures Quiet(s.ledger, Next(s, e).ledger)
  {
    hide Coherent;
    if InPhase(s, e.worker, Crawling) {
      assert Won(s, e.worker, s.workers[e.worker].job);
    }
  }

  lemma StartIsQuiet(l: Ledger, id: JobId, now: Time, lease: Lease, note: Note)
    ensures Quiet(l, Start(l, id, now, now, lease, Put(note.reason), note.message))
  {
  }

  lemma FinishIsQuiet(l: Ledger, id: JobId, status: Status, now: Time, note: Note)
    ensures Quiet(l, Finish(l, id, Some(status), now, Put(note.reason), note.message))
    ensures Quiet(l, FailIfActive(l, id, now, Put(note.reason), note.message))
  {
  }

  lemma WorkerStepIsQuiet(s: Sys, e: Event)
    requires e.StartJob? || e.FinishJob? || e.FailOwnJob?
    ensures Quiet(s.ledger, Next(s, e).ledger)
  {
    hide Start, Finish, FailIfActive, CanStart, FinishVerdict;
    if e.worker in s.workers {
      var worker := s.workers[e.worker];
      if e.StartJob? {
        StartIsQuiet(s.ledger, worker.job, e.now, e.lease, e.note);
      } else {
        FinishIsQuiet(s.ledger, worker.job, if e.FinishJob? && !worker.phase.CommandRaised? then e.target else Failed, e.now, e.note);
      }
    }
  }

  /** Only claims claim. */
  lemma {:induction false} StepIsQuietOrClaims(s: Sys, e: Event)
    requires Good(s) && !e.ClaimJob? && !e.SweepClaim?
    ensures Quiet(s.ledger, Next(s, e).ledger)
  {
    hide Good, ExpireAll, ReconcileSelection, InsertOutcome, Candidates, MayBeRetried, SourceBusy, FailIfActive, Finish,
         DoStart, DoFinish, DoFailOwn;
    if e.Heartbeat? {
      HeartbeatIsQuiet(s, e);
    } else if e.StartJob? || e.FinishJob? || e.FailOwnJob? {
      WorkerStepIsQuiet(s, e);
    } else if e.GiveUpDispatch? {
      FinishIsQuiet(s.ledger, e.id, Failed, e.now, e.note);
    } else if e.ReconcileJobs? {
      ExpireAllIsQuiet(s.ledger, ReconcileSelection(s.Jobs(), e.now, e.limit), e.now);
    }
  }

  lemma StepKeepsSpacing(s: Sys, e: Event)
    requires Good(s) && Spacing(s.ledger)
    ensures Spacing(Next(s, e).ledger)
  {
    if e.ClaimJob? {
      ClaimKeepsSpacing(s.ledger, e.id, e.now, e.lease);
    } else if e.SweepClaim? {
      if s.SweepOf(e.dispatcher).remaining != [] {
        ClaimKeepsSpacing(s.ledger, s.SweepOf(e.dispatcher).remaining[0], e.now, e.lease);
      }
    } else {
      StepIsQuietOrClaims(s, e);
      QuietKeepsSpacing(s.ledger, Next(s, e).ledger);
    }
  }

  lemma {:induction false} RunKeepsSpacing(events: seq<Event>)
    ensures Good(Run(Init(), events)) && Spacing(Run(Init(), events).ledger)
  {
    RunKeepsGood(Init(), events);
    if events != [] {
      RunKeepsSpacing(events[..|events| - 1]);
      StepKeepsSpacing(Run(Init(), events[..|events| - 1]), events[|events| - 1]);
    }
  }

  /** No clock assumption is needed: the claim's guard enforces the distance by itself. */
  lemma {:induction false} ClaimsAreALeaseApart(events: seq<Event>, i: nat, j: nat)
    ensures var log := Run(Init(), events).ledger.log;
            i < j < |log| && log[i].change.Claimed? && log[j].change.Claimed? && log[i].job == log[j].job
            ==> log[i].at + log[i].change.lease <= log[j].at
  {
    RunKeepsSpacing(events);
  }
}
