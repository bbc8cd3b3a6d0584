/**
 What every committed change keeps: the two unique indexes, the lease columns as a function of
 the history, at most one start per job, and the forward-only life of a row.
 */
module JobLedger {
  import opened Options
  import opened Ordering
  import opened CrawlJobs

  // ---------------------------------------------------------------- invariant

  /** The mutex: no two pending or running rows of one source. */
  ghost predicate OneActivePerSource(t: Table) {
    forall a, b, source | ActiveOn(t, a, source) && ActiveOn(t, b, source) :: a == b
  }

  /** Retries point backwards to existing rows, and no two of them to the same row. */
  ghost predicate OneRetryPerJob(t: Table) {
    && (forall id, original | RetryOf(t, id, original) :: original in t && original < id)
    && (forall a, b, original | RetryOf(t, a, original) && RetryOf(t, b, original) :: a == b)
  }

  /** The lease columns of a row are determined by the last entry about it. */
  ghost predicate RowAgrees(job: Job, last: Option<Entry>, starts: nat) {
    && job.timeoutAt == job.leaseExpiresAt == LeaseFrom(last)
    && (job.Active() && job.timeoutAt.Some? ==> job.heartbeatAt == Some(last.value.at))
    && starts <= 1
    && (job.status.Pending? ==>
          && starts == 0
          && (job.pickedAt.Some? <==> job.timeoutAt.Some?)
          && last.Some? && (last.value.change.Created? || last.value.change.Claimed? || last.value.change.Beat?)
          && job.startedAt.None? && job.finishedAt.None?)
    && (job.status.Running? ==>
          && starts == 1
          && last.Some? && (last.value.change.Started? || last.value.change.Beat?)
          && job.timeoutAt.Some? && job.pickedAt.Some? && job.startedAt.Some? && job.finishedAt.None?)
    && (job.status.Final() ==> job.timeoutAt.None? && job.startedAt.Some? && job.finishedAt.Some?)
  }

  ghost predicate Agrees(l: Ledger, id: JobId)
    requires id in l.jobs
  {
    RowAgrees(l.jobs[id], LastEntry(l.log, id), Starts(l.log, id))
  }

  ghost predicate Coherent(l: Ledger) {
    && OneActivePerSource(l.jobs)
    && OneRetryPerJob(l.jobs)
    && (forall id | id in l.jobs :: Agrees(l, id))
    && (forall i | 0 <= i < |l.log| :: l.log[i].job in l.jobs)
  }

  /** A pending job is free if nobody holds a lease on it: it was never claimed, or the lease of the
      last claim or heartbeat is over. */
  ghost predicate Free(l: Ledger, id: JobId, now: Time) {
    && id in l.jobs && l.jobs[id].status == Pending
    && (LeaseFrom(LastEntry(l.log, id)) == None || LeaseOver(LastEntry(l.log, id), now))
  }

  lemma FreeIsClaimable(l: Ledger, id: JobId, now: Time)
    requires Coherent(l)
    ensures CanClaim(l.jobs, id, now) <==> Free(l, id, now)
  {
    hide LastEntry, OneActivePerSource, OneRetryPerJob;
    if id in l.jobs {
      assert Agrees(l, id);
    }
  }

  // ---------------------------------------------------------------- evolution

  /** Where a status may have gone after any number of changes. */
  predicate Later(from: Status, to: Status) {
    match from
    case Pending => true
    case Running => !to.Pending?
    case _ => to == from
  }

  ghost predicate RowEvolves(from: Job, to: Job) {
    && to.source == from.source && to.retryOf == from.retryOf && to.jobType == from.jobType
    && to.createdAt == from.createdAt && to.queuedAt == from.queuedAt
    && Later(from.status, to.status)
    && (from.status.Final() ==>
          && to.pickedAt == from.pickedAt
          && (from.startedAt.Some? ==> to.startedAt == from.startedAt)
          && (from.finishedAt.Some? ==> to.finishedAt.Some?))
  }

  ghost predicate Evolves(from: Ledger, to: Ledger) {
    && from.log <= to.log
    && (forall id | id in from.jobs :: id in to.jobs)
    && (forall id | id in from.jobs :: RowEvolves(from.jobs[id], to.jobs[id]))
  }

  // ---------------------------------------------------------------- history lemmas

  lemma Appended(log: seq<Entry>, e: Entry, id: JobId)
    ensures LastEntry(log + [e], id) == if e.job == id then Some(e) else LastEntry(log, id)
    ensures Starts(log + [e], id) == Starts(log, id) + if e.change.Started? && e.job == id then 1 else 0
  {
    assert (log + [e])[..|log|] == log;
  }

  lemma {:induction false} NoHistory(log: seq<Entry>, id: JobId)
    requires forall i | 0 <= i < |log| :: log[i].job != id
    ensures LastEntry(log, id) == None && Starts(log, id) == 0
  {
    if log != [] {
      NoHistory(log[..|log| - 1], id);
    }
  }

  lemma RowChangeKeepsIndexes(t: Table, id: JobId, row: Job)
    requires OneActivePerSource(t) && OneRetryPerJob(t) && id in t
    requires row.source == t[id].source && row.retryOf == t[id].retryOf
    requires row.Active() ==> t[id].Active()
    ensures OneActivePerSource(t[id := row]) && OneRetryPerJob(t[id := row])
  {
    var t' := t[id := row];
    assert forall k, source :: ActiveOn(t', k, source) ==> ActiveOn(t, k, source);
    assert forall k, original :: RetryOf(t', k, original) <==> RetryOf(t, k, original);
  }

  lemma NewRowKeepsIndexes(t: Table, id: JobId, row: Job)
    requires OneActivePerSource(t) && OneRetryPerJob(t) && FreshId(t, id)
    requires InsertOutcome(t, row.source, row.retryOf) == CreatedJob
    ensures OneActivePerSource(t[id := row]) && OneRetryPerJob(t[id := row])
  {
    var t' := t[id := row];
    assert forall k, source :: ActiveOn(t', k, source) ==> ActiveOn(t, k, source) || (k == id && source == row.source);
    assert forall k: JobId, original: JobId | RetryOf(t', k, original) :: RetryOf(t, k, original) || (k == id && Some(original) == row.retryOf);
  }

  lemma RowChangeAgrees(l: Ledger, id: JobId, row: Job, e: Entry)
    requires Coherent(l) && id in l.jobs && e.job == id
    requires RowAgrees(row, Some(e), Starts(l.log, id) + if e.change.Started? then 1 else 0)
    ensures var l' := Ledger(l.jobs[id := row], l.log + [e]); forall k | k in l'.jobs :: Agrees(l', k)
  {
    var l' := Ledger(l.jobs[id := row], l.log + [e]);
    forall k | k in l'.jobs ensures Agrees(l', k) {
      Appended(l.log, e, k);
      assert k != id ==> Agrees(l, k);
    }
  }

  lemma RowChangeEvolves(l: Ledger, id: JobId, row: Job, e: Entry)
    requires id in l.jobs && RowEvolves(l.jobs[id], row)
    ensures Evolves(l, Ledger(l.jobs[id := row], l.log + [e]))
  {
  }

  /** A change of one row, recorded by one entry, keeps the ledger coherent. */
  lemma RowChangeIsCoherent(l: Ledger, id: JobId, row: Job, e: Entry)
    requires Coherent(l) && id in l.jobs && e.job == id
    requires RowEvolves(l.jobs[id], row)
    requires row.Active() ==> l.jobs[id].Active()
    requires RowAgrees(row, Some(e), Starts(l.log, id) + if e.change.Started? then 1 else 0)
    ensures var l' := Ledger(l.jobs[id := row], l.log + [e]); Coherent(l') && Evolves(l, l')
  {
    RowChangeKeepsIndexes(l.jobs, id, row);
    RowChangeAgrees(l, id, row, e);
    RowChangeEvolves(l, id, row, e);
  }

  lemma NewRowIsCoherent(l: Ledger, id: JobId, row: Job, now: Time)
    requires Coherent(l) && FreshId(l.jobs, id)
    requires InsertOutcome(l.jobs, row.source, row.retryOf) == CreatedJob
    requires RowAgrees(row, Some(Entry(id, now, Created)), 0)
    ensures var l' := Ledger(l.jobs[id := row], l.log + [Entry(id, now, Created)]); Coherent(l') && Evolves(l, l')
  {
    var l' := Ledger(l.jobs[id := row], l.log + [Entry(id, now, Created)]);
    NewRowKeepsIndexes(l.jobs, id, row);
    NoHistory(l.log, id);
    forall k | k in l'.jobs ensures Agrees(l', k) {
      Appended(l.log, Entry(id, now, Created), k);
      assert k != id ==> Agrees(l, k);
    }
  }

  lemma StatsChangeIsCoherent(l: Ledger, id: JobId, row: Job)
    requires Coherent(l) && id in l.jobs && row == l.jobs[id].(counters := row.counters)
    ensures var l' := l.(jobs := l.jobs[id := row]); Coherent(l') && Evolves(l, l')
  {
    RowChangeKeepsIndexes(l.jobs, id, row);
    var l' := l.(jobs := l.jobs[id := row]);
    forall k | k in l'.jobs ensures Agrees(l', k) {
      assert Agrees(l, k);
    }
  }

  // ---------------------------------------------------------------- each call

  lemma CreateKeeps(l: Ledger, id: JobId, source: SourceId, jobType: JobType, retryOf: Option<JobId>,
                    now: Time, message: Option<string>)
    requires Coherent(l) && FreshId(l.jobs, id)
    ensures var l' := Create(l, id, source, jobType, retryOf, now, message); Coherent(l') && Evolves(l, l')
  {
    if InsertOutcome(l.jobs, source, retryOf) == CreatedJob {
      NewRowIsCoherent(l, id, NewRow(source, jobType, retryOf, now, message), now);
    }
  }

  lemma ClaimKeeps(l: Ledger, id: JobId, now: Time, lease: Lease)
    requires Coherent(l)
    ensures Coherent(Claim(l, id, now, lease)) && Evolves(l, Claim(l, id, now, lease))
  {
    if CanClaim(l.jobs, id, now) {
      assert Agrees(l, id);
      RowChangeIsCoherent(l, id, ClaimedRow(l.jobs[id], now, lease), Entry(id, now, Claimed(lease)));
    }
  }

  lemma StartKeeps(l: Ledger, id: JobId, startedAt: Time, now: Time, lease: Lease,
                   failureReason: Patch<Option<string>>, message: Option<string>)
    requires Coherent(l)
    ensures var l' := Start(l, id, startedAt, now, lease, failureReason, message); Coherent(l') && Evolves(l, l')
  {
    if CanStart(l.jobs, id) {
      assert Agrees(l, id);
      var row := StartedRow(l.jobs[id], startedAt, now, lease, failureReason, message);
      RowChangeIsCoherent(l, id, row, Entry(id, now, Started(lease)));
    }
  }

  lemma HeartbeatKeeps(l: Ledger, id: JobId, now: Time, lease: Lease)
    requires Coherent(l)
    ensures Coherent(Heartbeat(l, id, now, lease)) && Evolves(l, Heartbeat(l, id, now, lease))
  {
    if id in l.jobs && l.jobs[id].Active() {
      assert Agrees(l, id);
      RowChangeIsCoherent(l, id, BeatenRow(l.jobs[id], now, lease), Entry(id, now, Beat(lease)));
    }
  }

  lemma RecordStatsKeeps(l: Ledger, id: Option<JobId>, deltas: Counters)
    requires Coherent(l)
    ensures Coherent(RecordStats(l, id, deltas)) && Evolves(l, RecordStats(l, id, deltas))
  {
    if id.Some? && id.value in l.jobs {
      var job := l.jobs[id.value];
      StatsChangeIsCoherent(l, id.value, job.(counters := job.counters.Plus(deltas)));
    }
  }

  lemma FinishKeeps(l: Ledger, id: JobId, status: Option<Status>, now: Time,
                    failureReason: Patch<Option<string>>, message: Option<string>)
    requires Coherent(l)
    ensures var l' := Finish(l, id, status, now, failureReason, message); Coherent(l') && Evolves(l, l')
  {
    if FinishVerdict(l.jobs, id, status) == FinishedJob {
      var target := TargetStatus(l.jobs[id], status);
      assert Agrees(l, id);
      var row := FinishedRow(l.jobs[id], target, now, failureReason, message);
      RowChangeIsCoherent(l, id, row, Entry(id, now, Finished(target)));
    }
  }

  lemma ExpireKeeps(l: Ledger, id: JobId, now: Time)
    requires Coherent(l)
    ensures Coherent(Expire(l, id, now)) && Evolves(l, Expire(l, id, now))
  {
    if id in l.jobs && l.jobs[id].status.Running? {
      assert Agrees(l, id);
      RowChangeIsCoherent(l, id, ExpiredRow(l.jobs[id], now), Entry(id, now, Expired));
    }
  }

  lemma EvolvesReflexively(l: Ledger)
    ensures Evolves(l, l)
  {
  }

  lemma EvolvesTransitively(a: Ledger, b: Ledger, c: Ledger)
    requires Evolves(a, b) && Evolves(b, c)
    ensures Evolves(a, c)
  {
  }

  lemma {:induction false} ExpireAllKeeps(l: Ledger, ids: seq<JobId>, now: Time)
    requires Coherent(l)
    ensures Coherent(ExpireAll(l, ids, now)) && Evolves(l, ExpireAll(l, ids, now))
  {
    if ids != [] {
      var init := ExpireAll(l, ids[..|ids| - 1], now);
      ExpireAllKeeps(l, ids[..|ids| - 1], now);
      ExpireKeeps(init, ids[|ids| - 1], now);
      EvolvesTransitively(l, init, ExpireAll(l, ids, now));
    }
  }

  lemma {:induction false} ExpireAllKeepsKeys(l: Ledger, ids: seq<JobId>, now: Time)
    ensures ExpireAll(l, ids, now).jobs.Keys == l.jobs.Keys
  {
    if ids != [] {
      ExpireAllKeepsKeys(l, ids[..|ids| - 1], now);
    }
  }
}
