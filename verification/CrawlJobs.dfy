/**
 The crawl_job table and the calls of the job service that change it
 (app/services/crawl_job_service.py).  Every call, together with its commit, is one
 atomic step from a ledger to a ledger.  A ledger is the table plus the history of the
 changes that were committed to it.
 */
module CrawlJobs {
  import opened Options
  import opened Ordering

  type Time = int
  type JobId = nat
  type SourceId = nat
  type Lease = seconds: nat | seconds >= 1 witness 1

  const DEFAULT_PENDING_LEASE_SECONDS := 120
  const DEFAULT_RUNNING_LEASE_SECONDS := 1800
  const HEARTBEAT_LOST := "任务心跳超时，执行进程可能已退出或卡死"
  const EXECUTION_TIMED_OUT := "任务执行超时："

  datatype Status = Pending | Running | Succeeded | Failed | Partial {
    predicate Active() { Pending? || Running? }

    predicate Final() { !Active() }
  }

  /** The transition table. */
  function AllowedTransitions(current: Status): set<Status> {
    match current
    case Pending => {Running, Failed}
    case Running => {Succeeded, Failed, Partial}
    case Succeeded => {Succeeded}
    case Failed => {Failed}
    case Partial => {Partial}
  }

  datatype JobType = Scheduled | Manual | Backfill | ManualRetry

  datatype Counters = Counters(
    pagesFetched: nat, documentsSaved: nat, noticesUpserted: nat, deduplicatedCount: nat,
    errorCount: nat, listItemsSeen: nat, listItemsUnique: nat, listItemsSkipped: nat,
    detailPagesFetched: nat, recordsInserted: nat, recordsUpdated: nat, duplicatesSuppressed: nat)
  {
    function Plus(d: Counters): Counters {
      Counters(
        pagesFetched + d.pagesFetched, documentsSaved + d.documentsSaved,
        noticesUpserted + d.noticesUpserted, deduplicatedCount + d.deduplicatedCount,
        errorCount + d.errorCount, listItemsSeen + d.listItemsSeen,
        listItemsUnique + d.listItemsUnique, listItemsSkipped + d.listItemsSkipped,
        detailPagesFetched + d.detailPagesFetched, recordsInserted + d.recordsInserted,
        recordsUpdated + d.recordsUpdated, duplicatesSuppressed + d.duplicatesSuppressed)
    }
  }

  const NO_COUNTS := Counters(0, 0, 0, 0, 0, 0, 0, 0, 0, 0, 0, 0)

  datatype Job = Job(
    source: SourceId, jobType: JobType, status: Status, retryOf: Option<JobId>,
    createdAt: Time, queuedAt: Option<Time>, pickedAt: Option<Time>, startedAt: Option<Time>,
    finishedAt: Option<Time>, heartbeatAt: Option<Time>,
    timeoutAt: Option<Time>, leaseExpiresAt: Option<Time>,
    counters: Counters, failureReason: Option<string>, message: Option<string>)
  {
    predicate Active() { status.Active() }

    /** `COALESCE(timeout_at, lease_expires_at)`. */
    function LeaseEnd(): Option<Time> { timeoutAt.Or(leaseExpiresAt) }

    /** The guard of the claim's UPDATE, which is also the guard of the candidate query. */
    predicate Claimable(now: Time) {
      && status.Pending?
      && (pickedAt.None? || LeaseEnd().None? || LeaseEnd().value <= now)
    }

    /** The guard of the reconcile query. */
    predicate Lapsed(now: Time) {
      status.Running? && LeaseEnd().Some? && LeaseEnd().value <= now
    }
  }

  type Table = map<JobId, Job>

  /** An argument that may be left unset, as opposed to being set to null. */
  datatype Patch<T> = Keep | Put(value: T) {
    function Over(current: T): T {
      if Keep? then current else value
    }
  }

  // ---------------------------------------------------------------- history

  /** What a committed change did to a row, as far as leases and execution are concerned. */
  datatype Change =
    | Created
    | Claimed(lease: Lease)
    | Started(lease: Lease)
    | Beat(lease: Lease)
    | Finished(status: Status)
    | Expired
  {
    predicate Leases() { Claimed? || Started? || Beat? }
  }

  datatype Entry = Entry(job: JobId, at: Time, change: Change)

  datatype Ledger = Ledger(jobs: Table, log: seq<Entry>)

  /** The last entry about a job. */
  function LastEntry(log: seq<Entry>, id: JobId): Option<Entry> {
    if log == [] then None
    else if log[|log| - 1].job == id then Some(log[|log| - 1])
    else LastEntry(log[..|log| - 1], id)
  }

  /** When the job's lease runs out, according to the last entry about it alone. */
  function LeaseFrom(last: Option<Entry>): Option<Time> {
    if last.Some? && last.value.change.Leases() then Some(last.value.at + last.value.change.lease) else None
  }

  predicate LeaseOver(last: Option<Entry>, now: Time) {
    LeaseFrom(last).Some? && LeaseFrom(last).value <= now
  }

  /** How often the job went from pending to running. */
  function Starts(log: seq<Entry>, id: JobId): nat {
    if log == [] then 0
    else
      var e := log[|log| - 1];
      Starts(log[..|log| - 1], id) + if e.change.Started? && e.job == id then 1 else 0
  }

  // ---------------------------------------------------------------- create

  predicate ActiveOn(t: Table, id: JobId, source: SourceId) {
    id in t && t[id].Active() && t[id].source == source
  }

  predicate RetryOf(t: Table, id: JobId, original: JobId) {
    id in t && t[id].retryOf == Some(original)
  }

  predicate SourceBusy(t: Table, source: SourceId) {
    exists id | id in t :: ActiveOn(t, id, source)
  }

  predicate Retried(t: Table, original: JobId) {
    exists id | id in t :: RetryOf(t, id, original)
  }

  datatype CreateOutcome = CreatedJob | RetryTargetMissing | RetryConflict | SourceConflict

  /** What inserting a row reports, given the two unique indexes and the retry check. */
  function InsertOutcome(t: Table, source: SourceId, retryOf: Option<JobId>): CreateOutcome {
    if retryOf.Some? && retryOf.value !in t then RetryTargetMissing
    else if retryOf.Some? && Retried(t, retryOf.value) then RetryConflict
    else if SourceBusy(t, source) then SourceConflict
    else CreatedJob
  }

  function NewRow(source: SourceId, jobType: JobType, retryOf: Option<JobId>, now: Time, message: Option<string>): Job {
    Job(source, jobType, Pending, retryOf, now, Some(now), None, None, None, None, None, None, NO_COUNTS, None, message)
  }

  /** The primary key comes from a sequence: it is larger than every key handed out before. */
  predicate FreshId(t: Table, id: JobId) {
    forall k | k in t :: k < id
  }

  function Create(l: Ledger, id: JobId, source: SourceId, jobType: JobType, retryOf: Option<JobId>,
                  now: Time, message: Option<string>): Ledger
  {
    if InsertOutcome(l.jobs, source, retryOf) != CreatedJob then l
    else Ledger(l.jobs[id := NewRow(source, jobType, retryOf, now, message)], l.log + [Entry(id, now, Created)])
  }

  // ---------------------------------------------------------------- claim, start, heartbeat

  predicate CanClaim(t: Table, id: JobId, now: Time) {
    id in t && t[id].Claimable(now)
  }

  function Leased(job: Job, now: Time, lease: Lease): Job {
    job.(heartbeatAt := Some(now), timeoutAt := Some(now + lease), leaseExpiresAt := Some(now + lease))
  }

  function ClaimedRow(job: Job, now: Time, lease: Lease): Job {
    Leased(job, now, lease).(pickedAt := Some(now))
  }

  function Claim(l: Ledger, id: JobId, now: Time, lease: Lease): Ledger {
    if !CanClaim(l.jobs, id, now) then l
    else Ledger(l.jobs[id := ClaimedRow(l.jobs[id], now, lease)], l.log + [Entry(id, now, Claimed(lease))])
  }

  predicate CanStart(t: Table, id: JobId) {
    id in t && t[id].status.Pending?
  }

  function StartedRow(job: Job, startedAt: Time, now: Time, lease: Lease,
                      failureReason: Patch<Option<string>>, message: Option<string>): Job
  {
    Leased(job, now, lease).(
      status := Running,
      pickedAt := job.pickedAt.Or(Some(startedAt)),
      startedAt := job.startedAt.Or(Some(startedAt)),
      finishedAt := None,
      failureReason := failureReason.Over(job.failureReason),
      message := message.Or(job.message))
  }

  function Start(l: Ledger, id: JobId, startedAt: Time, now: Time, lease: Lease,
                 failureReason: Patch<Option<string>>, message: Option<string>): Ledger
  {
    if !CanStart(l.jobs, id) then l
    else Ledger(l.jobs[id := StartedRow(l.jobs[id], startedAt, now, lease, failureReason, message)],
                l.log + [Entry(id, now, Started(lease))])
  }

  function BeatenRow(job: Job, now: Time, lease: Lease): Job {
    Leased(job, now, lease).(
      pickedAt := job.pickedAt.Or(Some(now)),
      startedAt := if job.status.Running? then job.startedAt.Or(Some(now)) else job.startedAt)
  }

  function Heartbeat(l: Ledger, id: JobId, now: Time, lease: Lease): Ledger {
    if id !in l.jobs || !l.jobs[id].Active() then l
    else Ledger(l.jobs[id := BeatenRow(l.jobs[id], now, lease)], l.log + [Entry(id, now, Beat(lease))])
  }

  function RecordStats(l: Ledger, id: Option<JobId>, deltas: Counters): Ledger {
    if id.None? || id.value !in l.jobs then l
    else l.(jobs := l.jobs[id.value := l.jobs[id.value].(counters := l.jobs[id.value].counters.Plus(deltas))])
  }

  // ---------------------------------------------------------------- finish

  datatype FinishOutcome = FinishedJob | NoSuchJob | NotFinal | BadTransition

  function InferSuccessStatus(job: Job): Status {
    if job.counters.errorCount > 0 then Partial else Succeeded
  }

  function TargetStatus(job: Job, status: Option<Status>): Status {
    status.GetOr(InferSuccessStatus(job))
  }

  function FinishVerdict(t: Table, id: JobId, status: Option<Status>): FinishOutcome {
    if id !in t then NoSuchJob
    else
      var target := TargetStatus(t[id], status);
      if target.Active() then NotFinal
      else if target !in AllowedTransitions(t[id].status) then BadTransition
      else FinishedJob
  }

  function FinishedRow(job: Job, target: Status, now: Time, failureReason: Patch<Option<string>>, message: Option<string>): Job {
    var picked := if job.status.Running? && job.pickedAt.None? then job.startedAt.Or(Some(now)) else job.pickedAt;
    job.(
      status := target,
      pickedAt := picked,
      startedAt := job.startedAt.Or(picked).Or(Some(job.createdAt)),
      finishedAt := Some(now),
      heartbeatAt := Some(now),
      timeoutAt := None,
      leaseExpiresAt := None,
      failureReason := failureReason.Over(job.failureReason),
      message := message.Or(job.message))
  }

  function Finish(l: Ledger, id: JobId, status: Option<Status>, now: Time,
                  failureReason: Patch<Option<string>>, message: Option<string>): Ledger
  {
    if FinishVerdict(l.jobs, id, status) != FinishedJob then l
    else
      var target := TargetStatus(l.jobs[id], status);
      Ledger(l.jobs[id := FinishedRow(l.jobs[id], target, now, failureReason, message)], l.log + [Entry(id, now, Finished(target))])
  }

  function FailIfActive(l: Ledger, id: JobId, now: Time, failureReason: Patch<Option<string>>, message: Option<string>): Ledger {
    if id !in l.jobs || l.jobs[id].status.Final() then l
    else Finish(l, id, Some(Failed), now, failureReason, message)
  }

  // ---------------------------------------------------------------- reconcile

  function LapsedIds(t: Table, now: Time): set<JobId> {
    set id | id in t && t[id].Lapsed(now)
  }

  /** `ORDER BY timeout, id`. */
  predicate LapsesBefore(t: Table, a: JobId, b: JobId) {
    var x := if a in t then t[a].LeaseEnd().GetOr(0) else 0;
    var y := if b in t then t[b].LeaseEnd().GetOr(0) else 0;
    x < y || (x == y && a <= b)
  }

  function LapseOrder(t: Table): (JobId, JobId) -> bool {
    (a: JobId, b: JobId) => LapsesBefore(t, a, b)
  }

  function LapsedInOrder(t: Table, now: Time): seq<JobId> {
    Sort(LapseOrder(t), Ascending(LapsedIds(t, now)))
  }

  function ReconcileSelection(t: Table, now: Time, limit: Option<nat>): seq<JobId> {
    if limit.None? then LapsedInOrder(t, now) else Limit(limit.value, LapsedInOrder(t, now))
  }

  function ExpiredRow(job: Job, now: Time): Job {
    job.(
      status := Failed,
      startedAt := job.startedAt.Or(job.pickedAt).Or(Some(job.createdAt)),
      finishedAt := Some(now),
      heartbeatAt := Some(now),
      timeoutAt := None,
      leaseExpiresAt := None,
      failureReason := Some(HEARTBEAT_LOST),
      message := Some(EXECUTION_TIMED_OUT + HEARTBEAT_LOST))
  }

  function Expire(l: Ledger, id: JobId, now: Time): Ledger {
    if id !in l.jobs || !l.jobs[id].status.Running? then l
    else Ledger(l.jobs[id := ExpiredRow(l.jobs[id], now)], l.log + [Entry(id, now, Expired)])
  }

  function ExpireAll(l: Ledger, ids: seq<JobId>, now: Time): Ledger {
    if ids == [] then l else Expire(ExpireAll(l, ids[..|ids| - 1], now), ids[|ids| - 1], now)
  }

  function Reconcile(l: Ledger, now: Time, limit: Option<nat>): Ledger {
    ExpireAll(l, ReconcileSelection(l.jobs, now, limit), now)
  }

  lemma LapsedInOrderIsOrdered(t: Table, now: Time)
    ensures var ids := LapsedInOrder(t, now);
            && SortedBy(LapseOrder(t), ids) && Distinct(ids)
            && |ids| == |LapsedIds(t, now)|
            && forall id :: id in ids <==> id in LapsedIds(t, now)
  {
    var keys := Ascending(LapsedIds(t, now));
    assert TotalOrderOn(LapseOrder(t), keys);
    SortOrders(LapseOrder(t), keys);
    SameMembers(LapsedInOrder(t, now), keys);
    RearrangementIsDistinct(keys, LapsedInOrder(t, now));
  }

  lemma PrefixOfOrdering(leq: (JobId, JobId) -> bool, ordered: seq<JobId>, prefix: seq<JobId>)
    requires SortedBy(leq, ordered) && Distinct(ordered) && prefix <= ordered
    ensures SortedBy(leq, prefix) && Distinct(prefix)
    ensures forall x | x in prefix :: x in ordered
    ensures forall a, b | a in prefix && b in ordered && b !in prefix :: leq(a, b)
  {
    assert forall k | 0 <= k < |prefix| :: prefix[k] == ordered[k];
    forall a, b | a in prefix && b in ordered && b !in prefix ensures leq(a, b) {
      var i :| 0 <= i < |prefix| && prefix[i] == a;
      var j :| 0 <= j < |ordered| && ordered[j] == b;
      assert ordered[i] == a;
      assert forall k | 0 <= k < |prefix| :: ordered[k] == prefix[k];
      assert leq(ordered[i], ordered[j]);
    }
  }

  /** The selection: lapsed running jobs only, each once, and none passed over that lapsed earlier. */
  lemma {:induction false} SelectionIsEarliestLapsed(t: Table, now: Time, limit: Option<nat>)
    ensures var ids := ReconcileSelection(t, now, limit);
            && Distinct(ids)
            && (forall id | id in ids :: id in t && t[id].Lapsed(now))
            && (limit.None? ==> forall id | id in t && t[id].Lapsed(now) :: id in ids)
            && (limit.Some? ==> |ids| == if limit.value <= |LapsedIds(t, now)| then limit.value else |LapsedIds(t, now)|)
            && (forall i, j | 0 <= i < j < |ids| :: LapsedEarlier(t, ids[i], ids[j]))
            && (forall a, b | a in ids && b in t && t[b].Lapsed(now) && b !in ids :: LapsedEarlier(t, a, b))
  {
    LapsedInOrderIsOrdered(t, now);
    var ids := ReconcileSelection(t, now, limit);
    PrefixOfOrdering(LapseOrder(t), LapsedInOrder(t, now), ids);
    forall i, j | 0 <= i < j < |ids| ensures LapsedEarlier(t, ids[i], ids[j]) {
      assert ids[i] in ids && ids[j] in ids && LapseOrder(t)(ids[i], ids[j]);
    }
    forall a, b | a in ids && b in t && t[b].Lapsed(now) && b !in ids ensures LapsedEarlier(t, a, b) {
      assert b in LapsedIds(t, now) && LapseOrder(t)(a, b);
    }
  }

  /** The lease of a ran out before that of b, or at the same time and a is the older row. */
  predicate LapsedEarlier(t: Table, a: JobId, b: JobId) {
    && a in t && b in t && t[a].LeaseEnd().Some? && t[b].LeaseEnd().Some?
    && (t[a].LeaseEnd().value < t[b].LeaseEnd().value || (t[a].LeaseEnd() == t[b].LeaseEnd() && a < b))
  }
}
