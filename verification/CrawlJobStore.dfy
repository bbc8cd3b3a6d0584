/**
 The job service over the mutable crawl_job table.  Each method is one call plus its commit; its
 effect is tied to the ledger step of the same name, and a call that raises changes nothing.
 */
module CrawlJobStore {
  import opened Options
  import opened Ordering
  import opened CrawlJobs
  import opened JobLedger

  /** A returned row, no row, or an exception. */
  datatype Reply = Row(job: Job) | Nothing | Raised

  /** What a reconcile leaves in a row: lapsed rows that were selected are expired, all others stand. */
  lemma {:induction false} ExpireAllIsPointwise(l: Ledger, ids: seq<JobId>, now: Time)
    requires Distinct(ids) && forall id | id in ids :: id in l.jobs && l.jobs[id].status.Running?
    ensures var l' := ExpireAll(l, ids, now);
            && l'.jobs.Keys == l.jobs.Keys
            && forall k | k in l.jobs :: l'.jobs[k] == if k in ids then ExpiredRow(l.jobs[k], now) else l.jobs[k]
  {
    if ids != [] {
      var init := ids[..|ids| - 1];
      var last := ids[|ids| - 1];
      assert ids == init + [last];
      assert last !in init;
      ExpireAllIsPointwise(l, init, now);
    }
  }

  /** Without a limit, reconciling fails exactly the running rows whose lease has run out. */
  lemma {:induction false} ReconcileExpiresExactlyTheLapsed(l: Ledger, now: Time)
    ensures var l' := Reconcile(l, now, None);
            && l'.jobs.Keys == l.jobs.Keys
            && forall k | k in l.jobs :: l'.jobs[k] == if l.jobs[k].Lapsed(now) then ExpiredRow(l.jobs[k], now) else l.jobs[k]
  {
    SelectionIsEarliestLapsed(l.jobs, now, None);
    ExpireAllIsPointwise(l, ReconcileSelection(l.jobs, now, None), now);
  }

  /** In mid-loop, the next selected row is still running. */
  lemma NextSelectedStillRuns(l: Ledger, ids: seq<JobId>, i: nat, now: Time)
    requires Distinct(ids) && i < |ids| && forall id | id in ids :: id in l.jobs && l.jobs[id].status.Running?
    ensures var l' := ExpireAll(l, ids[..i], now);
            && ids[i] in l'.jobs && l'.jobs[ids[i]].status.Running?
            && ExpireAll(l, ids[..i + 1], now) == Expire(l', ids[i], now)
  {
    assert ids[..i + 1][..i] == ids[..i] && ids[..i + 1][i] == ids[i];
    assert ids[i] !in ids[..i];
    ExpireAllIsPointwise(l, ids[..i], now);
  }

  lemma ReconcileSettles(l: Ledger, now: Time, limit: Option<nat>)
    ensures var ids := ReconcileSelection(l.jobs, now, limit);
            var l' := Reconcile(l, now, limit);
            && Distinct(ids)
            && (forall id | id in ids :: id in l.jobs && l.jobs[id].status.Running?)
            && (forall id | id in ids :: id in l'.jobs && l'.jobs[id].status == Failed)
            && (limit.None? ==> forall id | id in l'.jobs :: !l'.jobs[id].Lapsed(now))
  {
    SelectionIsEarliestLapsed(l.jobs, now, limit);
    ExpireAllIsPointwise(l, ReconcileSelection(l.jobs, now, limit), now);
  }

  class Store {
    var jobs: Table
    ghost var log: seq<Entry>

    ghost function State(): Ledger
      reads this
    {
      Ledger(jobs, log)
    }

    constructor ()
      ensures State() == Ledger(map[], []) && Coherent(State())
    {
      jobs := map[];
      log := [];
    }

    method CreateJob(id: JobId, source: SourceId, jobType: JobType, retryOf: Option<JobId>, now: Time, message: Option<string>)
      returns (outcome: CreateOutcome)
      requires Coherent(State()) && FreshId(jobs, id)
      modifies this
      ensures State() == Create(old(State()), id, source, jobType, retryOf, now, message)
      ensures outcome == InsertOutcome(old(jobs), source, retryOf)
      ensures outcome != CreatedJob ==> State() == old(State())
      ensures Coherent(State()) && Evolves(old(State()), State())
    {
      CreateKeeps(State(), id, source, jobType, retryOf, now, message);
      outcome := InsertOutcome(jobs, source, retryOf);
      if outcome == CreatedJob {
        jobs := jobs[id := NewRow(source, jobType, retryOf, now, message)];
        log := log + [Entry(id, now, Created)];
      }
    }

    method ClaimPendingJob(id: JobId, now: Time, leaseSeconds: int := DEFAULT_PENDING_LEASE_SECONDS) returns (reply: Reply)
      requires Coherent(State())
      modifies this
      ensures leaseSeconds < 1 ==> reply.Raised? && State() == old(State())
      ensures leaseSeconds >= 1 ==> State() == Claim(old(State()), id, now, leaseSeconds)
      ensures leaseSeconds >= 1 && Free(old(State()), id, now) ==>
                id in jobs && reply == Row(jobs[id]) && jobs[id].pickedAt == Some(now) && log == old(log) + [Entry(id, now, Claimed(leaseSeconds))]
      ensures leaseSeconds >= 1 && !Free(old(State()), id, now) ==> reply == Nothing && State() == old(State())
      ensures Coherent(State()) && Evolves(old(State()), State())
    {
      hide Coherent, Evolves;
      EvolvesReflexively(State());
      if leaseSeconds < 1 {
        return Raised;
      }
      ClaimKeeps(State(), id, now, leaseSeconds);
      FreeIsClaimable(State(), id, now);
      hide Free;
      var leaseEnd := now + leaseSeconds;
      if id !in jobs || !jobs[id].Claimable(now) {
        return Nothing;
      }
      var job := jobs[id];
      job := job.(pickedAt := Some(now), heartbeatAt := Some(now));
      job := job.(timeoutAt := Some(leaseEnd), leaseExpiresAt := Some(leaseEnd));
      jobs := jobs[id := job];
      log := log + [Entry(id, now, Claimed(leaseSeconds))];
      return Row(job);
    }

    method StartJob(id: JobId, startedAt: Option<Time>, now: Time, failureReason: Patch<Option<string>>, message: Option<string>,
                    leaseSeconds: int := DEFAULT_RUNNING_LEASE_SECONDS)
      returns (reply: Reply)
      requires Coherent(State())
      modifies this
      ensures leaseSeconds < 1 ==> reply.Raised? && State() == old(State())
      ensures leaseSeconds >= 1 ==>
                State() == Start(old(State()), id, startedAt.GetOr(now), now, leaseSeconds, failureReason, message)
      ensures leaseSeconds >= 1 ==>
                reply == if CanStart(old(jobs), id) then Row(jobs[id]) else Nothing
      ensures Coherent(State()) && Evolves(old(State()), State())
    {
      if leaseSeconds < 1 {
        return Raised;
      }
      var moment := startedAt.GetOr(now);
      StartKeeps(State(), id, moment, now, leaseSeconds, failureReason, message);
      if id !in jobs || !jobs[id].status.Pending? {
        return Nothing;
      }
      var job := jobs[id];
      job := job.(pickedAt := job.pickedAt.Or(Some(moment)), startedAt := job.startedAt.Or(Some(moment)), finishedAt := None);
      job := job.(status := Running, heartbeatAt := Some(now));
      job := job.(timeoutAt := Some(now + leaseSeconds), leaseExpiresAt := Some(now + leaseSeconds));
      if message.Some? {
        job := job.(message := message);
      }
      if failureReason.Put? {
        job := job.(failureReason := failureReason.value);
      }
      jobs := jobs[id := job];
      log := log + [Entry(id, now, Started(leaseSeconds))];
      return Row(job);
    }

    method HeartbeatJob(id: JobId, now: Time, leaseSeconds: int := DEFAULT_RUNNING_LEASE_SECONDS) returns (reply: Reply)
      requires Coherent(State())
      modifies this
      ensures id !in old(jobs) ==> reply.Nothing?
      ensures id in old(jobs) && old(jobs)[id].Active() && leaseSeconds < 1 ==> reply.Raised?
      ensures id in old(jobs) && (old(jobs)[id].status.Final() || leaseSeconds >= 1) ==> id in jobs && reply == Row(jobs[id])
      ensures State() == if leaseSeconds >= 1 then Heartbeat(old(State()), id, now, leaseSeconds) else old(State())
      ensures Coherent(State()) && Evolves(old(State()), State())
    {
      if id !in jobs {
        return Nothing;
      }
      var job := jobs[id];
      if !job.Active() {
        return Row(job);
      }
      if leaseSeconds < 1 {
        return Raised;
      }
      HeartbeatKeeps(State(), id, now, leaseSeconds);
      if job.pickedAt.None? {
        job := job.(pickedAt := Some(now));
      }
      if job.startedAt.None? && job.status.Running? {
        job := job.(startedAt := Some(now));
      }
      job := job.(heartbeatAt := Some(now));
      job := job.(timeoutAt := Some(now + leaseSeconds), leaseExpiresAt := Some(now + leaseSeconds));
      jobs := jobs[id := job];
      log := log + [Entry(id, now, Beat(leaseSeconds))];
      return Row(job);
    }

    /** `status` unset lets the error counter decide between partial and succeeded. */
    method FinishJob(id: JobId, status: Option<Status>, now: Time, failureReason: Patch<Option<string>>, message: Option<string>)
      returns (outcome: FinishOutcome)
      requires Coherent(State())
      modifies this
      ensures outcome == FinishVerdict(old(jobs), id, status)
      ensures State() == Finish(old(State()), id, status, now, failureReason, message)
      ensures outcome != FinishedJob ==> State() == old(State())
      ensures Coherent(State()) && Evolves(old(State()), State())
    {
      hide Coherent, Evolves;
      EvolvesReflexively(State());
      FinishKeeps(State(), id, status, now, failureReason, message);
      if id !in jobs {
        return NoSuchJob;
      }
      var job := jobs[id];
      var target := if status.Some? then status.value else InferSuccessStatus(job);
      if !target.Final() {
        return NotFinal;
      }
      if target !in AllowedTransitions(job.status) {
        return BadTransition;
      }
      if job.status.Running? && job.pickedAt.None? {
        job := job.(pickedAt := job.startedAt.Or(Some(now)));
      }
      if job.startedAt.None? {
        job := job.(startedAt := job.pickedAt.Or(Some(job.createdAt)));
      }
      job := job.(finishedAt := Some(now), status := target, heartbeatAt := Some(now));
      job := job.(timeoutAt := None, leaseExpiresAt := None);
      if message.Some? {
        job := job.(message := message);
      }
      if failureReason.Put? {
        job := job.(failureReason := failureReason.value);
      }
      jobs := jobs[id := job];
      log := log + [Entry(id, now, Finished(target))];
      return FinishedJob;
    }

    method FailJobIfActive(id: JobId, now: Time, failureReason: Patch<Option<string>>, message: Option<string>)
      requires Coherent(State())
      modifies this
      ensures State() == FailIfActive(old(State()), id, now, failureReason, message)
      ensures id in jobs ==> jobs[id].status.Final()
      ensures id in old(jobs) && old(jobs)[id].Active() ==> jobs[id].status == Failed
      ensures id in old(jobs) && old(jobs)[id].status.Final() ==> State() == old(State())
      ensures Coherent(State()) && Evolves(old(State()), State())
    {
      if id in jobs && jobs[id].Active() {
        var outcome := FinishJob(id, Some(Failed), now, failureReason, message);
        assert outcome == FinishedJob;
      }
    }

    method RecordJobStats(id: Option<JobId>, deltas: Counters)
      requires Coherent(State())
      modifies this
      ensures State() == RecordStats(old(State()), id, deltas)
      ensures Coherent(State()) && Evolves(old(State()), State())
    {
      RecordStatsKeeps(State(), id, deltas);
      if id.Some? && id.value in jobs {
        var job := jobs[id.value];
        jobs := jobs[id.value := job.(counters := job.counters.Plus(deltas))];
      }
    }

    /** The transition check cannot fail: the row is running. */
    method ExpireJob(id: JobId, now: Time)
      requires Coherent(State()) && id in jobs && jobs[id].status.Running?
      modifies this
      ensures State() == Expire(old(State()), id, now)
      ensures Coherent(State()) && Evolves(old(State()), State())
    {
      ExpireKeeps(State(), id, now);
      var job := jobs[id];
      assert Failed in AllowedTransitions(job.status);
      job := job.(startedAt := job.startedAt.Or(job.pickedAt).Or(Some(job.createdAt)), finishedAt := Some(now));
      job := job.(status := Failed, heartbeatAt := Some(now), timeoutAt := None, leaseExpiresAt := None);
      job := job.(failureReason := Some(HEARTBEAT_LOST), message := Some(EXECUTION_TIMED_OUT + HEARTBEAT_LOST));
      jobs := jobs[id := job];
      log := log + [Entry(id, now, Expired)];
    }

    method ReconcileExpiredJobs(now: Time, limit: Option<nat>) returns (expired: seq<JobId>)
      requires Coherent(State())
      modifies this
      ensures expired == ReconcileSelection(old(jobs), now, limit)
      ensures State() == Reconcile(old(State()), now, limit)
      ensures forall id | id in expired :: id in jobs && jobs[id].status == Failed
      ensures limit.None? ==> forall id | id in jobs :: !jobs[id].Lapsed(now)
      ensures Coherent(State()) && Evolves(old(State()), State())
    {
      hide Coherent, Evolves, ReconcileSelection;
      ghost var before := State();
      expired := ReconcileSelection(jobs, now, limit);
      ReconcileSettles(before, now, limit);
      ExpireAllKeeps(before, expired, now);
      var i := 0;
      while i < |expired|
        invariant 0 <= i <= |expired|
        invariant State() == ExpireAll(before, expired[..i], now)
      {
        NextSelectedStillRuns(before, expired, i, now);
        ExpireAllKeeps(before, expired[..i], now);
        ExpireJob(expired[i], now);
        i := i + 1;
      }
      assert expired[..i] == expired;
    }
  }
}
