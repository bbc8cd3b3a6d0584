/**
 Bounded waiting: a claimable job with k claimable jobs ahead of it in queue order is loaded by a
 dispatcher's sweep number k / size + 1 at the latest, unless somebody took it before, however the
 steps of other processes are interleaved.
 */
module DispatchWaiting {
  import opened Options
  import opened Ordering
  import opened CrawlJobs
  import opened JobLedger
  import opened CrawlProtocol
  import opened CrawlRuns
  import opened ClaimSpacing

  /** A stretch of time in which no pending lease runs out. */
  datatype Window = Window(from: Time, to: Time)

  ghost predicate NoLapse(t: Table, win: Window) {
    forall id | id in t && t[id].status.Pending? && t[id].LeaseEnd().Some? ::
      t[id].LeaseEnd().value <= win.from || win.to < t[id].LeaseEnd().value
  }

  /** An event inside the window; a lease taken in the window outlives it. */
  predicate Inside(e: Event, win: Window) {
    match e
    case InsertJob(_, _, now) => win.from <= now <= win.to
    case ClaimJob(_, now, lease) => win.from <= now <= win.to < now + lease
    case SweepLoad(_, _, now) => win.from <= now <= win.to
    case SweepClaim(_, now, lease) => win.from <= now <= win.to < now + lease
    case _ => true
  }

  predicate Open(t: Table, id: JobId, win: Window) {
    id in t && t[id].Claimable(win.from)
  }

  /** The claimable jobs that a sweep takes before `job`. */
  function Ahead(t: Table, job: JobId, win: Window): set<JobId> {
    set id | id in t && Open(t, id, win) && id != job && QueuedBefore(t, id, job)
  }

  /** The job was queued before the window began. */
  ghost predicate Waiting(s: Sys, job: JobId, win: Window) {
    && win.from <= win.to
    && NoLapse(s.Jobs(), win)
    && job in s.Jobs()
    && (s.Jobs()[job].queuedAt.Some? ==> s.Jobs()[job].queuedAt.value <= win.from)
  }

  lemma ClaimableThroughoutWindow(t: Table, id: JobId, win: Window, now: Time)
    requires NoLapse(t, win) && win.from <= now <= win.to
    ensures Open(t, id, win) <==> id in t && t[id].Claimable(now)
  {
  }

  // ---------------------------------------------------------------- nobody cuts in

  lemma ClaimKeepsNoLapse(l: Ledger, id: JobId, now: Time, lease: Lease, win: Window)
    requires NoLapse(l.jobs, win) && win.from <= now <= win.to < now + lease
    ensures var t' := Claim(l, id, now, lease).jobs;
            && NoLapse(t', win) && !Open(t', id, win)
            && t'.Keys == l.jobs.Keys
            && (forall k | k in t' && k != id :: t'[k] == l.jobs[k])
            && (id in t' ==> t'[id].queuedAt == l.jobs[id].queuedAt)
  {
    ClaimableThroughoutWindow(l.jobs, id, win, now);
  }

  /** A step that leaves pending leases alone and queues new jobs no earlier than the window. */
  ghost predicate NobodyCutsIn(t: Table, t': Table, win: Window) {
    && (forall id | id in t :: id in t' && t'[id].queuedAt == t[id].queuedAt)
    && (forall id | id in t && Open(t', id, win) :: Open(t, id, win))
    && (forall id | id in t' && id !in t ::
          FreshId(t, id) && t'[id].queuedAt.Some? && win.from <= t'[id].queuedAt.value)
  }

  lemma AheadOnlyShrinks(t: Table, t': Table, job: JobId, win: Window)
    requires NobodyCutsIn(t, t', win) && job in t
    requires t[job].queuedAt.Some? ==> t[job].queuedAt.value <= win.from
    ensures Ahead(t', job, win) <= Ahead(t, job, win)
  {
  }

  lemma QuietStepKeepsQueue(s: Sys, e: Event, win: Window)
    requires Good(s) && NoLapse(s.Jobs(), win) && Inside(e, win)
    requires !e.ClaimJob? && !e.SweepClaim? && !e.InsertJob?
    ensures NobodyCutsIn(s.Jobs(), Next(s, e).Jobs(), win) && NoLapse(Next(s, e).Jobs(), win)
  {
    hide Next, WinnersAgree, RowAgrees, RowEvolves, OneActivePerSource, OneRetryPerJob;
    var t' := Next(s, e).Jobs();
    StepKeepsGood(s, e);
    StepIsQuietOrClaims(s, e);
    OnlyInsertsAddRows(s, e);
    forall id | id in t' ensures t'[id].queuedAt == s.Jobs()[id].queuedAt {
      QueueTimeIsFixed(s.ledger, Next(s, e).ledger, id);
    }
    forall id | id in t' && t'[id].status.Pending?
      ensures t'[id].LeaseEnd() == s.Jobs()[id].LeaseEnd() && t'[id].Claimable(win.from) == s.Jobs()[id].Claimable(win.from)
    {
      SamePendingLease(s.ledger, Next(s, e).ledger, id, win.from);
    }
  }

  lemma QueueTimeIsFixed(l: Ledger, l': Ledger, id: JobId)
    requires Evolves(l, l') && id in l.jobs
    ensures id in l'.jobs && l'.jobs[id].queuedAt == l.jobs[id].queuedAt
  {
  }

  lemma SamePendingLease(l: Ledger, l': Ledger, id: JobId, now: Time)
    requires Coherent(l) && Coherent(l') && Quiet(l, l') && id in l.jobs && id in l'.jobs && l'.jobs[id].status.Pending?
    ensures l'.jobs[id].LeaseEnd() == l.jobs[id].LeaseEnd()
    ensures l'.jobs[id].Claimable(now) == l.jobs[id].Claimable(now)
  {
    assert Agrees(l, id) && Agrees(l', id);
  }

  lemma InsertKeepsQueue(s: Sys, e: Event, win: Window)
    requires NoLapse(s.Jobs(), win) && e.InsertJob? && Inside(e, win)
    ensures NobodyCutsIn(s.Jobs(), Next(s, e).Jobs(), win) && NoLapse(Next(s, e).Jobs(), win)
  {
    hide InsertOutcome;
  }

  lemma {:induction false} StepKeepsQueue(s: Sys, e: Event, win: Window)
    requires Good(s) && NoLapse(s.Jobs(), win) && Inside(e, win)
    ensures NobodyCutsIn(s.Jobs(), Next(s, e).Jobs(), win) && NoLapse(Next(s, e).Jobs(), win)
  {
    hide Claim, Create, ExpireAll, ReconcileSelection, Coherent, WinnersAgree, DoInsert;
    if e.ClaimJob? {
      ClaimKeepsNoLapse(s.ledger, e.id, e.now, e.lease, win);
    } else if e.SweepClaim? {
      if s.SweepOf(e.dispatcher).remaining != [] {
        ClaimKeepsNoLapse(s.ledger, s.SweepOf(e.dispatcher).remaining[0], e.now, e.lease, win);
      }
    } else if e.InsertJob? {
      InsertKeepsQueue(s, e, win);
    } else {
      QuietStepKeepsQueue(s, e, win);
    }
  }

  // ---------------------------------------------------------------- one sweep

  /** A sweep that passes a claimable job over has loaded only jobs ahead of it, and a full batch. */
  lemma {:induction false} PassedOverMeansFullBatchAhead(t: Table, job: JobId, win: Window, now: Time, size: int)
    requires NoLapse(t, win) && win.from <= now <= win.to && Open(t, job, win)
    requires job !in Candidates(t, now, size)
    ensures var batch := Members(Candidates(t, now, size));
            batch <= Ahead(t, job, win) && |batch| == SweepSize(size)
  {
    var q := Queue(t, now);
    var found := Candidates(t, now, size);
    QueueIsOrdered(t, now);
    PrefixOfOrdering(QueueOrder(t), q, found);
    ClaimableThroughoutWindow(t, job, win, now);
    assert job in q;
    assert |q| <= SweepSize(size) ==> found == q;
    DistinctMembers(found);
    forall id | id in found ensures id in Ahead(t, job, win) {
      ClaimableThroughoutWindow(t, id, win, now);
      assert QueueOrder(t)(id, job);
    }
  }

  // ---------------------------------------------------------------- many sweeps

  ghost predicate LoadedSince(s: Sys, d: DispatcherId, job: JobId, since: nat) {
    job in s.SweepOf(d).lastLoad && s.SweepOf(d).lastLoad[job] > since
  }

  ghost predicate SweepsOfSize(events: seq<Event>, d: DispatcherId, size: int) {
    forall i | 0 <= i < |events| && events[i].SweepLoad? && events[i].dispatcher == d :: events[i].size == size
  }

  /** Those ahead of the job that d's current sweep has not loaded. */
  ghost function Left(s: Sys, d: DispatcherId, job: JobId, win: Window): set<JobId> {
    Ahead(s.Jobs(), job, win) - Members(s.SweepOf(d).remaining)
  }

  /** Every sweep of d that passed the job over has removed a full batch from those ahead of it. */
  ghost predicate Progress(s: Sys, d: DispatcherId, job: JobId, win: Window, size: int, since: nat, k: nat) {
    && since <= s.SweepOf(d).loads
    && (Open(s.Jobs(), job, win) && !LoadedSince(s, d, job, since) ==>
          |Left(s, d, job, win)| + Batches(s.SweepOf(d).loads - since, SweepSize(size)) <= k)
  }

  /** The rows in n full batches. */
  function Batches(n: nat, size: nat): nat {
    if n == 0 then 0 else Batches(n - 1, size) + size
  }

  /** A step that is not d's own keeps d's progress. */
  lemma OtherStepKeepsProgress(s: Sys, s': Sys, d: DispatcherId, job: JobId, win: Window, size: int, since: nat, k: nat)
    requires Progress(s, d, job, win, size, since, k) && Waiting(s, job, win)
    requires NobodyCutsIn(s.Jobs(), s'.Jobs(), win) && s'.SweepOf(d) == s.SweepOf(d)
    ensures Progress(s', d, job, win, size, since, k)
  {
    hide Ahead, Open;
    AheadOnlyShrinks(s.Jobs(), s'.Jobs(), job, win);
    SubsetsAreSmaller(Left(s', d, job, win), Left(s, d, job, win));
  }

  /** The claimed head of the batch leaves those ahead, or had left them before. */
  lemma ClaimedHeadLeaves(s: Sys, s': Sys, d: DispatcherId, job: JobId, win: Window)
    requires s.SweepOf(d).remaining != [] && s'.SweepOf(d).remaining == s.SweepOf(d).remaining[1..]
    requires !Open(s'.Jobs(), s.SweepOf(d).remaining[0], win)
    requires Ahead(s'.Jobs(), job, win) <= Ahead(s.Jobs(), job, win)
    ensures Left(s', d, job, win) <= Left(s, d, job, win)
  {
    var remaining := s.SweepOf(d).remaining;
    assert remaining == [remaining[0]] + remaining[1..];
    assert Members(remaining) == {remaining[0]} + Members(remaining[1..]);
  }

  lemma ClaimStepKeepsProgress(s: Sys, s': Sys, d: DispatcherId, job: JobId, win: Window, size: int, since: nat, k: nat,
                               now: Time, lease: Lease)
    requires Progress(s, d, job, win, size, since, k) && Waiting(s, job, win)
    requires s.SweepOf(d).remaining != [] && win.from <= now <= win.to < now + lease
    requires s' == DoSweepClaim(s, d, now, lease) && NobodyCutsIn(s.Jobs(), s'.Jobs(), win)
    ensures Progress(s', d, job, win, size, since, k)
  {
    hide Ahead, Open, Claim;
    ClaimKeepsNoLapse(s.ledger, s.SweepOf(d).remaining[0], now, lease, win);
    AheadOnlyShrinks(s.Jobs(), s'.Jobs(), job, win);
    ClaimedHeadLeaves(s, s', d, job, win);
    SubsetsAreSmaller(Left(s', d, job, win), Left(s, d, job, win));
  }

  lemma LoadStepKeepsProgress(s: Sys, s': Sys, d: DispatcherId, job: JobId, win: Window, size: int, since: nat, k: nat, now: Time)
    requires Progress(s, d, job, win, size, since, k) && Waiting(s, job, win)
    requires s.SweepOf(d).remaining == [] && win.from <= now <= win.to
    requires s' == DoSweepLoad(s, d, size, now)
    ensures Progress(s', d, job, win, size, since, k)
  {
    hide Ahead, Open, Candidates;
    var found := Candidates(s.Jobs(), now, size);
    assert s'.SweepOf(d).remaining == found && s'.SweepOf(d).loads == s.SweepOf(d).loads + 1;
    if Open(s'.Jobs(), job, win) && !LoadedSince(s', d, job, since) {
      assert job !in Members(found);
      assert !LoadedSince(s, d, job, since);
      PassedOverMeansFullBatchAhead(s.Jobs(), job, win, now, size);
      SubsetsAreSmaller(Members(found), Ahead(s.Jobs(), job, win));
      assert Left(s, d, job, win) == Ahead(s.Jobs(), job, win);
    }
  }

  lemma {:induction false} StepKeepsProgress(s: Sys, e: Event, d: DispatcherId, job: JobId, win: Window, size: int, since: nat, k: nat)
    requires Good(s) && Waiting(s, job, win) && Progress(s, d, job, win, size, since, k) && Inside(e, win)
    requires e.SweepLoad? && e.dispatcher == d ==> e.size == size
    ensures Waiting(Next(s, e), job, win) && Progress(Next(s, e), d, job, win, size, since, k)
  {
    hide Claim, Create, Candidates, Left, Ahead, Open, Coherent, WinnersAgree;
    StepKeepsQueue(s, e, win);
    if e.SweepClaim? && e.dispatcher == d && s.SweepOf(d).remaining != [] {
      ClaimStepKeepsProgress(s, Next(s, e), d, job, win, size, since, k, e.now, e.lease);
    } else if e.SweepLoad? && e.dispatcher == d && s.SweepOf(d).remaining == [] {
      LoadStepKeepsProgress(s, Next(s, e), d, job, win, size, since, k, e.now);
    } else {
      OtherStepKeepsProgress(s, Next(s, e), d, job, win, size, since, k);
    }
  }

  lemma {:induction false} RunKeepsProgress(s: Sys, events: seq<Event>, d: DispatcherId, job: JobId, win: Window, size: int)
    requires Good(s) && Waiting(s, job, win) && s.SweepOf(d).remaining == []
    requires (forall i | 0 <= i < |events| :: Inside(events[i], win)) && SweepsOfSize(events, d, size)
    requires !LoadedSince(s, d, job, s.SweepOf(d).loads)
    ensures var s' := Run(s, events);
            && Good(s') && Waiting(s', job, win)
            && Progress(s', d, job, win, size, s.SweepOf(d).loads, |Ahead(s.Jobs(), job, win)|)
  {
    if events == [] {
      assert Left(s, d, job, win) == Ahead(s.Jobs(), job, win);
    } else {
      var init := events[..|events| - 1];
      RunKeepsProgress(s, init, d, job, win, size);
      StepKeepsGood(Run(s, init), events[|events| - 1]);
      StepKeepsProgress(Run(s, init), events[|events| - 1], d, job, win, size, s.SweepOf(d).loads, |Ahead(s.Jobs(), job, win)|);
    }
  }

  /** How many batches of `size` rows k rows fill. */
  function BatchesIn(k: nat, size: nat): nat
    requires size >= 1
  {
    if k < size then 0 else 1 + BatchesIn(k - size, size)
  }

  /** That is, the integer quotient k / size. */
  lemma {:induction false} BatchesInIsQuotient(k: nat, size: nat)
    requires size >= 1
    ensures BatchesIn(k, size) * size <= k < (BatchesIn(k, size) + 1) * size
  {
    if k >= size {
      var q := BatchesIn(k - size, size);
      BatchesInIsQuotient(k - size, size);
      assert (q + 1) * size == q * size + size && (q + 2) * size == (q + 1) * size + size;
    }
  }

  lemma {:induction false} FullBatchesFit(k: nat, size: nat, n: nat)
    requires size >= 1 && Batches(n, size) <= k
    ensures n <= BatchesIn(k, size)
  {
    if n > 0 {
      assert Batches(n, size) >= size;
      FullBatchesFit(k - size, size, n - 1);
    }
  }

  lemma {:induction false} EnoughSweeps(s: Sys, events: seq<Event>, d: DispatcherId, job: JobId, win: Window, size: int)
    requires Good(s) && Waiting(s, job, win) && s.SweepOf(d).remaining == []
    requires (forall i | 0 <= i < |events| :: Inside(events[i], win)) && SweepsOfSize(events, d, size)
    requires !LoadedSince(s, d, job, s.SweepOf(d).loads)
    ensures var s' := Run(s, events);
            && s.SweepOf(d).loads <= s'.SweepOf(d).loads
            && (Open(s'.Jobs(), job, win) && !LoadedSince(s', d, job, s.SweepOf(d).loads) ==>
                  Batches(s'.SweepOf(d).loads - s.SweepOf(d).loads, SweepSize(size)) <= |Ahead(s.Jobs(), job, win)|)
  {
    RunKeepsProgress(s, events, d, job, win, size);
  }

  /** As long as the job is claimable and passed over, at most k / size sweeps have begun: sweep
      k / size + 1 loads it unless somebody took it before. */
  lemma {:induction false} BoundedWaiting(s: Sys, events: seq<Event>, d: DispatcherId, job: JobId, win: Window, size: int)
    requires Good(s) && Waiting(s, job, win) && s.SweepOf(d).remaining == []
    requires (forall i | 0 <= i < |events| :: Inside(events[i], win)) && SweepsOfSize(events, d, size)
    requires !LoadedSince(s, d, job, s.SweepOf(d).loads)
    ensures var s' := Run(s, events);
            Open(s'.Jobs(), job, win) && !LoadedSince(s', d, job, s.SweepOf(d).loads) ==>
              s'.SweepOf(d).loads - s.SweepOf(d).loads <= BatchesIn(|Ahead(s.Jobs(), job, win)|, SweepSize(size))
  {
    hide Next;
    EnoughSweeps(s, events, d, job, win, size);
    var s' := Run(s, events);
    if Open(s'.Jobs(), job, win) && !LoadedSince(s', d, job, s.SweepOf(d).loads) {
      FullBatchesFit(|Ahead(s.Jobs(), job, win)|, SweepSize(size), s'.SweepOf(d).loads - s.SweepOf(d).loads);
    }
  }
}
