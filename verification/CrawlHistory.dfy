/** What each call on a job does, read off the status of the row and the history of the job alone. */
module CrawlHistory {
  import opened Options
  import opened Ordering
  import opened CrawlJobs
  import opened JobLedger
  import opened CrawlProtocol
  import opened CrawlRuns
  import opened CrawlGuarantees

  /** In every reachable state the queue holds exactly the free jobs; a lapsed lease frees its job. */
  lemma {:induction false} QueueHoldsTheFree(events: seq<Event>, now: Time, id: JobId)
    ensures var s := Run(Init(), events);
            id in Queue(s.Jobs(), now) <==>
              && id in s.Jobs() && s.Jobs()[id].status == Pending
              && (LeaseFrom(LastEntry(s.ledger.log, id)) == None || LeaseOver(LastEntry(s.ledger.log, id), now))
  {
    var s := Run(Init(), events);
    ReachableIsGood(events);
    hide Run, LastEntry, LeaseFrom, LeaseOver;
    FreeIsClaimable(s.ledger, id, now);
    hide Coherent, WinnersAgree;
    QueueIsOrdered(s.Jobs(), now);
    hide Queue;
    assert id in ClaimableIds(s.Jobs(), now) <==> CanClaim(s.Jobs(), id, now);
  }

  /** In every reachable state a claim succeeds exactly if the job is free; it then records a lease
      from now on and the pick, and otherwise nothing changes. */
  lemma {:induction false} ClaimTakesTheFree(events: seq<Event>, id: JobId, now: Time, lease: Lease)
    ensures var s := Run(Init(), events);
            var s' := Next(s, ClaimJob(id, now, lease));
            var free := id in s.Jobs() && s.Jobs()[id].status == Pending
                        && (LeaseFrom(LastEntry(s.ledger.log, id)) == None || LeaseOver(LastEntry(s.ledger.log, id), now));
            && s'.ledger.log == s.ledger.log + (if free then [Entry(id, now, Claimed(lease))] else [])
            && (free ==> id in s'.Jobs() && s'.Jobs()[id].status == Pending && s'.Jobs()[id].pickedAt == Some(now))
            && (!free ==> s' == s)
            && (forall k | k in s.Jobs() && k != id :: k in s'.Jobs() && s'.Jobs()[k] == s.Jobs()[k])
  {
    var s := Run(Init(), events);
    ReachableIsGood(events);
    hide Run, LastEntry, LeaseFrom, LeaseOver;
    FreeIsClaimable(s.ledger, id, now);
    hide Coherent, WinnersAgree;
  }

  /** A sweep claims the jobs it loaded the same way, one after the other. */
  lemma SweepClaimsTheNext(s: Sys, d: DispatcherId, now: Time, lease: Lease)
    requires s.SweepOf(d).remaining != []
    ensures var id := s.SweepOf(d).remaining[0];
            var s' := Next(s, SweepClaim(d, now, lease));
            s'.ledger == Next(s, ClaimJob(id, now, lease)).ledger && s'.SweepOf(d).remaining == s.SweepOf(d).remaining[1..]
  {
  }

  /** Any two jobs of the queue: without a queue time first, then by queue time, then by id. */
  lemma {:induction false} QueueIsByTime(t: Table, now: Time, i: nat, j: nat)
    requires i < j < |Queue(t, now)|
    ensures var a, b := Queue(t, now)[i], Queue(t, now)[j];
            a in t && b in t &&
            var x, y := t[a].queuedAt, t[b].queuedAt;
            || (x.None? && y.Some?)
            || (x.Some? && y.Some? && x.value < y.value)
            || (x == y && a < b)
  {
    QueueIsOrdered(t, now);
    var q := Queue(t, now);
    hide Queue;
    assert q[i] in q && q[j] in q && q[i] != q[j];
    assert QueueOrder(t)(q[i], q[j]);
  }

  /** A sweep of size n loads the first n jobs of the queue, at least one, or all if there are fewer. */
  lemma CandidatesAreTheFirst(t: Table, now: Time, size: int)
    ensures var found := Candidates(t, now, size);
            && found <= Queue(t, now)
            && (|found| < |Queue(t, now)| ==> |found| == size || (size < 1 && |found| == 1))
            && (found == [] ==> Queue(t, now) == [])
            && (size >= 1 ==> |found| <= size) && (size < 1 ==> |found| <= 1)
  {
  }

  /** A launched worker starts its job exactly if it is pending; the start and the pick are dated now
      unless they were dated before. */
  lemma {:induction false} StartTakesThePending(events: seq<Event>, w: WorkerId, now: Time, lease: Lease, note: Note)
    requires InPhase(Run(Init(), events), w, Launched)
    ensures var s := Run(Init(), events);
            var id := s.workers[w].job;
            var s' := Next(s, StartJob(w, now, lease, note));
            var starts := id in s.Jobs() && s.Jobs()[id].status == Pending;
            && s'.ledger.log == s.ledger.log + (if starts then [Entry(id, now, Started(lease))] else [])
            && (InPhase(s', w, Crawling) <==> starts)
            && (!starts ==> s'.ledger == s.ledger)
            && (starts ==>
                  && id in s'.Jobs() && s'.Jobs()[id].status == Running && s'.Jobs()[id].startedAt == Some(now)
                  && s'.Jobs()[id].pickedAt == if s.Jobs()[id].pickedAt.Some? then s.Jobs()[id].pickedAt else Some(now))
  {
    var s := Run(Init(), events);
    ReachableIsGood(events);
    hide Run, LastEntry;
    if s.workers[w].job in s.Jobs() {
      assert Agrees(s.ledger, s.workers[w].job);
    }
  }

  /** A heartbeat of a crawling worker renews the lease of its job as long as the job is running, and
      changes nothing once the job is finished. */
  lemma {:induction false} HeartbeatRenewsTheLease(events: seq<Event>, w: WorkerId, now: Time, lease: Lease)
    requires InPhase(Run(Init(), events), w, Crawling)
    ensures var s := Run(Init(), events);
            var id := s.workers[w].job;
            var s' := Next(s, Heartbeat(w, now, lease));
            && id in s.Jobs()
            && (s.Jobs()[id].status == Running ==>
                  && s'.ledger.log == s.ledger.log + [Entry(id, now, Beat(lease))]
                  && id in s'.Jobs() && s'.Jobs()[id].status == Running && s'.Jobs()[id].startedAt == s.Jobs()[id].startedAt
                  && s'.Jobs()[id].heartbeatAt == Some(now) && s'.Jobs()[id].timeoutAt == Some(now + lease))
            && (s.Jobs()[id].status != Running ==> s' == s)
  {
    var s := Run(Init(), events);
    ReachableIsGood(events);
    hide Run, LastEntry;
    var id := s.workers[w].job;
    assert Won(s, w, id);
    assert Agrees(s.ledger, id);
  }

  /** Finishing, for any table: accepted exactly for a final status that the job may take, a status left
      open being decided by the error counter; the row is then closed and dated. */
  lemma {:induction false} FinishClosesTheRow(l: Ledger, id: JobId, status: Option<Status>, now: Time,
                                              failureReason: Patch<Option<string>>, message: Option<string>)
    requires id in l.jobs
    ensures var job := l.jobs[id];
            var target := if status.Some? then status.value else if job.counters.errorCount > 0 then Partial else Succeeded;
            var accepted := target != Pending && target != Running
                            && (job.status == Running || (job.status == Pending && target == Failed) || job.status == target);
            var l' := Finish(l, id, status, now, failureReason, message);
            && (!accepted ==> l' == l)
            && (accepted ==>
                  && l'.log == l.log + [Entry(id, now, Finished(target))]
                  && id in l'.jobs && l'.jobs[id].status == target && l'.jobs[id].counters == job.counters
                  && l'.jobs[id].finishedAt == Some(now) && l'.jobs[id].timeoutAt == None && l'.jobs[id].leaseExpiresAt == None
                  && (job.startedAt.Some? ==> l'.jobs[id].startedAt == job.startedAt)
                  && (job.startedAt.None? && job.pickedAt.Some? ==> l'.jobs[id].startedAt == job.pickedAt)
                  && (message.Some? ==> l'.jobs[id].message == message) && (message.None? ==> l'.jobs[id].message == job.message)
                  && (failureReason.Put? ==> l'.jobs[id].failureReason == failureReason.value)
                  && (failureReason.Keep? ==> l'.jobs[id].failureReason == job.failureReason)
                  && forall k | k in l.jobs && k != id :: k in l'.jobs && l'.jobs[k] == l.jobs[k])
  {
  }

  /** The guard of the retry endpoint admits a request exactly if the original exists, failed or ended
      partial, is no retry itself, and is the original of no other job. */
  lemma {:induction false} GuardAdmitsExactly(s: Sys, c: CreatorId, original: JobId)
    requires c !in s.creators
    ensures c in Next(s, RequestRetry(c, original)).creators <==>
            && original in s.Jobs() && (s.Jobs()[original].status == Failed || s.Jobs()[original].status == Partial)
            && s.Jobs()[original].retryOf == None
            && forall k | k in s.Jobs() :: s.Jobs()[k].retryOf != Some(original)
  {
    assert Retried(s.Jobs(), original) <==> exists k | k in s.Jobs() :: s.Jobs()[k].retryOf == Some(original) by {
      if k :| k in s.Jobs() && s.Jobs()[k].retryOf == Some(original) { assert RetryOf(s.Jobs(), k, original); }
    }
  }

  /** In every reachable state an unlimited reconcile closes exactly the running jobs whose lease, read
      off the history, is over: failed, dated now, without a lease and with the reason spelled out. */
  lemma {:induction false} ReconcileClosesTheLapsed(events: seq<Event>, now: Time, id: JobId)
    requires id in Run(Init(), events).Jobs()
    ensures var s := Run(Init(), events);
            var job := s.Jobs()[id];
            var t' := Next(s, ReconcileJobs(now, None)).Jobs();
            id in t' &&
            if job.status == Running && LeaseOver(LastEntry(s.ledger.log, id), now) then
              && t'[id].status == Failed && t'[id].finishedAt == Some(now) && t'[id].heartbeatAt == Some(now)
              && t'[id].timeoutAt == None && t'[id].leaseExpiresAt == None
              && t'[id].failureReason == Some("任务心跳超时，执行进程可能已退出或卡死")
              && t'[id].message == Some("任务执行超时：" + "任务心跳超时，执行进程可能已退出或卡死")
              && t'[id].source == job.source && t'[id].counters == job.counters && t'[id].pickedAt == job.pickedAt
              && (job.startedAt.Some? ==> t'[id].startedAt == job.startedAt)
            else t'[id] == job
  {
    hide Run, LastEntry, LeaseOver, ReconcileSelection, Reconcile;
    ReconcileNeedsAFullLease(events, now, None, id);
  }

  /** No row of the source is pending or running; the original of a retry exists and no row points to it. */
  ghost predicate MayInsert(t: Table, source: SourceId, retryOf: Option<JobId>) {
    && (forall k | k in t && t[k].source == source :: t[k].status != Pending && t[k].status != Running)
    && (retryOf.Some? ==> retryOf.value in t && forall k | k in t :: t[k].retryOf != retryOf)
  }

  lemma InsertIsFree(t: Table, source: SourceId, retryOf: Option<JobId>)
    ensures InsertOutcome(t, source, retryOf) == CreatedJob <==> MayInsert(t, source, retryOf)
  {
    forall k | k in t && t[k].source == source && t[k].Active() ensures SourceBusy(t, source) {
      assert ActiveOn(t, k, source);
    }
    forall k | k in t && retryOf.Some? && t[k].retryOf == retryOf ensures Retried(t, retryOf.value) {
      assert RetryOf(t, k, retryOf.value);
    }
  }

  /** A creation whose check is done inserts its job exactly if no row of the source is pending or running
      and, for a retry, the original exists and no row points to it; the row is bare and queued now. */
  lemma {:induction false} InsertAddsABareJob(s: Sys, c: CreatorId, id: JobId, now: Time)
    requires c in s.creators && s.creators[c].Checked? && FreshId(s.Jobs(), id)
    ensures var r := s.creators[c];
            var s' := Next(s, InsertJob(c, id, now));
            var free := MayInsert(s.Jobs(), r.source, r.retryOf);
            && c !in s'.creators
            && (id in s'.Jobs() <==> free)
            && (!free ==> s'.ledger == s.ledger)
            && (free ==>
                  && s'.Jobs() == s.Jobs()[id := s'.Jobs()[id]] && s'.ledger.log == s.ledger.log + [Entry(id, now, Created)]
                  && var job := s'.Jobs()[id];
                  && job.source == r.source && job.jobType == r.jobType && job.retryOf == r.retryOf
                  && job.status == Pending && job.createdAt == now && job.queuedAt == Some(now)
                  && job.pickedAt == job.startedAt == job.finishedAt == job.timeoutAt == None && job.counters == NO_COUNTS)
  {
    InsertIsFree(s.Jobs(), s.creators[c].source, s.creators[c].retryOf);
    hide InsertOutcome;
  }
}
