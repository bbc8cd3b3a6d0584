/**
 The migration that makes a legacy table fit the source mutex: of several active rows of one
 source it keeps the most recent and fails the others.
 */
module MutexMigration {
  import opened Options
  import opened Ordering
  import opened Text
  import opened CrawlJobs
  import opened JobLedger

  /** The text put into a superseded row, naming the row that was kept. */
  type Explain = JobId -> string

  /** `COALESCE(picked_at, started_at, queued_at, created_at)`. */
  function Recency(job: Job): Time {
    job.pickedAt.Or(job.startedAt).Or(job.queuedAt).GetOr(job.createdAt)
  }

  function ActiveIds(t: Table, source: SourceId): set<JobId> {
    set id | id in t && ActiveOn(t, id, source)
  }

  /** `ORDER BY recency DESC, id DESC`. */
  predicate MoreRecent(t: Table, a: JobId, b: JobId) {
    var x := if a in t then Recency(t[a]) else 0;
    var y := if b in t then Recency(t[b]) else 0;
    x > y || (x == y && a >= b)
  }

  function RecentFirst(t: Table): (JobId, JobId) -> bool {
    (a: JobId, b: JobId) => MoreRecent(t, a, b)
  }

  function ActiveRows(t: Table, source: SourceId): seq<JobId> {
    Sort(RecentFirst(t), Ascending(ActiveIds(t, source)))
  }

  /** `GROUP BY source HAVING COUNT(*) > 1` over the active rows. */
  function DuplicateSources(t: Table): set<SourceId> {
    set id | id in t && |ActiveIds(t, t[id].source)| > 1 :: t[id].source
  }

  function AppendMessage(existing: Option<string>, extra: string): string {
    var original := Strip(existing.GetOr(""));
    if original == "" then extra else original + "; " + extra
  }

  function FailedDuplicate(job: Job, moment: Time, extra: string): Job {
    job.(
      status := Failed,
      startedAt := job.startedAt.Or(job.pickedAt).Or(job.queuedAt).Or(Some(job.createdAt)),
      finishedAt := Some(moment),
      heartbeatAt := job.heartbeatAt.Or(Some(moment)),
      timeoutAt := None,
      leaseExpiresAt := None,
      message := Some(AppendMessage(job.message, extra)))
  }

  // ---------------------------------------------------------------- what the result must be

  /** `keeper` is the most recent active row of its source. */
  ghost predicate IsKeeper(t: Table, keeper: JobId, source: SourceId) {
    ActiveOn(t, keeper, source) && forall id | ActiveOn(t, id, source) :: MoreRecent(t, keeper, id)
  }

  /** Row by row: a row stands unless it is active and some other active row of its source is more
      recent; then it is failed with a message that names the most recent one. */
  ghost predicate CollapsedRow(t: Table, id: JobId, row: Job, moment: Time, explain: Explain)
    requires id in t
  {
    if !t[id].Active() || IsKeeper(t, id, t[id].source) then row == t[id]
    else exists keeper :: IsKeeper(t, keeper, t[id].source) && row == FailedDuplicate(t[id], moment, explain(keeper))
  }

  ghost predicate Collapsed(t: Table, t': Table, moment: Time, explain: Explain) {
    t'.Keys == t.Keys && forall id | id in t :: CollapsedRow(t, id, t'[id], moment, explain)
  }

  ghost predicate CollapsedSource(t: Table, t': Table, source: SourceId, moment: Time, explain: Explain) {
    && t'.Keys == t.Keys
    && (forall id | id in t && !ActiveOn(t, id, source) :: t'[id] == t[id])
    && (forall id | ActiveOn(t, id, source) :: CollapsedRow(t, id, t'[id], moment, explain))
  }

  ghost predicate CollapsedFor(t: Table, t': Table, sources: seq<SourceId>, moment: Time, explain: Explain) {
    && t'.Keys == t.Keys
    && forall id | id in t ::
      && t'[id].source == t[id].source
      && if t[id].source in sources then CollapsedRow(t, id, t'[id], moment, explain) else t'[id] == t[id]
  }

  // ---------------------------------------------------------------- the loops

  class Connection {
    var jobs: Table

    constructor (jobs: Table)
      ensures this.jobs == jobs
    {
      this.jobs := jobs;
    }

    method UpdateFailedDuplicate(id: JobId, moment: Time, extra: string)
      requires id in jobs
      modifies this
      ensures jobs == old(jobs)[id := FailedDuplicate(old(jobs)[id], moment, extra)]
    {
      var job := jobs[id];
      job := job.(status := Failed, finishedAt := Some(moment));
      job := job.(startedAt := job.startedAt.Or(job.pickedAt).Or(job.queuedAt).Or(Some(job.createdAt)));
      job := job.(heartbeatAt := job.heartbeatAt.Or(Some(moment)), timeoutAt := None, leaseExpiresAt := None);
      job := job.(message := Some(AppendMessage(job.message, extra)));
      jobs := jobs[id := job];
    }

    /** The inner loop: all active rows of one source but the most recent. */
    method CollapseSource(source: SourceId, moment: Time, explain: Explain)
      requires source in DuplicateSources(jobs)
      modifies this
      ensures CollapsedSource(old(jobs), jobs, source, moment, explain)
    {
      ghost var before := jobs;
      var rows := ActiveRows(jobs, source);
      ActiveRowsAreOrdered(jobs, source);
      AllActive(jobs, source);
      hide ActiveRows, IsKeeper, CollapsedRow, FailedDuplicate;
      var keep := rows[0];
      var i := 1;
      while i < |rows|
        invariant 1 <= i <= |rows|
        invariant jobs.Keys == before.Keys
        invariant forall k | 1 <= k < i :: jobs[rows[k]] == FailedDuplicate(before[rows[k]], moment, explain(keep))
        invariant forall k | i <= k < |rows| :: jobs[rows[k]] == before[rows[k]]
        invariant forall id | id in jobs && !ActiveOn(before, id, source) :: jobs[id] == before[id]
        invariant jobs[keep] == before[keep]
      {
        UpdateFailedDuplicate(rows[i], moment, explain(keep));
        i := i + 1;
      }
      AllButFirstFailed(before, jobs, source, moment, explain);
    }

    method CollapseLegacyActiveDuplicates(moment: Time, explain: Explain)
      modifies this
      ensures Collapsed(old(jobs), jobs, moment, explain)
    {
      hide CollapsedRow, DuplicateSources;
      ghost var before := jobs;
      var sources := Ascending(DuplicateSources(jobs));
      var i := 0;
      while i < |sources|
        invariant 0 <= i <= |sources|
        invariant CollapsedFor(before, jobs, sources[..i], moment, explain)
      {
        ghost var mid := jobs;
        assert sources[i] !in sources[..i] && sources[i] in sources;
        SameSourceRows(before, mid, sources[..i], sources[i], moment, explain);
        CollapseSource(sources[i], moment, explain);
        OneMoreSource(before, mid, jobs, sources[..i], sources[i], moment, explain);
        assert sources[..i + 1] == sources[..i] + [sources[i]];
        i := i + 1;
      }
      assert sources[..i] == sources;
      OtherSourcesStand(before, jobs, sources, moment, explain);
    }
  }

  lemma ActiveRowsAreOrdered(t: Table, source: SourceId)
    ensures var rows := ActiveRows(t, source);
            && Distinct(rows) && |rows| == |ActiveIds(t, source)|
            && (forall id :: id in rows <==> ActiveOn(t, id, source))
            && (rows != [] ==> IsKeeper(t, rows[0], source))
  {
    var keys := Ascending(ActiveIds(t, source));
    var rows := ActiveRows(t, source);
    assert TotalOrderOn(RecentFirst(t), keys);
    SortOrders(RecentFirst(t), keys);
    SameMembers(rows, keys);
    RearrangementIsDistinct(keys, rows);
    if rows != [] {
      forall id | ActiveOn(t, id, source) ensures MoreRecent(t, rows[0], id) {
        assert id in rows;
        OrderOnMembers(RecentFirst(t), keys, rows);
        FirstIsLeast(RecentFirst(t), rows, id);
      }
    }
  }

  lemma AllActive(t: Table, source: SourceId)
    ensures var rows := ActiveRows(t, source); forall k | 0 <= k < |rows| :: ActiveOn(t, rows[k], source)
    ensures source in DuplicateSources(t) ==> |ActiveRows(t, source)| > 1
  {
    ActiveRowsAreOrdered(t, source);
  }

  lemma AllButFirstFailed(t: Table, t': Table, source: SourceId, moment: Time, explain: Explain)
    requires t'.Keys == t.Keys && source in DuplicateSources(t)
    requires forall id | id in t && !ActiveOn(t, id, source) :: t'[id] == t[id]
    requires var rows := ActiveRows(t, source);
             && (forall k | 0 <= k < |rows| :: rows[k] in t)
             && |rows| > 1 && t'[rows[0]] == t[rows[0]]
             && forall k | 1 <= k < |rows| :: t'[rows[k]] == FailedDuplicate(t[rows[k]], moment, explain(rows[0]))
    ensures CollapsedSource(t, t', source, moment, explain)
  {
    hide ActiveRows, FailedDuplicate;
    var rows := ActiveRows(t, source);
    ActiveRowsAreOrdered(t, source);
    forall id | ActiveOn(t, id, source) ensures CollapsedRow(t, id, t'[id], moment, explain) {
      var k :| 0 <= k < |rows| && rows[k] == id;
      if k > 0 {
        OnlyOneKeeper(t, rows[0], id, source);
      }
    }
  }

  lemma OnlyOneKeeper(t: Table, keeper: JobId, id: JobId, source: SourceId)
    requires IsKeeper(t, keeper, source) && id != keeper
    ensures !IsKeeper(t, id, source)
  {
  }

  lemma LoneActiveIsKeeper(t: Table, id: JobId)
    requires id in t && t[id].Active() && t[id].source !in DuplicateSources(t)
    ensures IsKeeper(t, id, t[id].source)
  {
    var ids := ActiveIds(t, t[id].source);
    assert id in ids && |ids| <= 1;
    forall k | ActiveOn(t, k, t[id].source) ensures k == id {
      assert k in ids;
      SubsetsAreSmaller({id, k}, ids);
    }
  }

  /** The rows of a source that was not collapsed yet are as they were. */
  lemma SameSourceRows(before: Table, mid: Table, done: seq<SourceId>, source: SourceId, moment: Time, explain: Explain)
    requires CollapsedFor(before, mid, done, moment, explain) && source !in done
    ensures forall id :: ActiveOn(mid, id, source) <==> ActiveOn(before, id, source)
    ensures source in DuplicateSources(before) ==> source in DuplicateSources(mid)
  {
    hide CollapsedRow;
    assert ActiveIds(mid, source) == ActiveIds(before, source);
    if source in DuplicateSources(before) {
      var id :| id in before && |ActiveIds(before, before[id].source)| > 1 && before[id].source == source;
      assert id in mid && mid[id].source == source;
    }
  }

  lemma SameCollapse(before: Table, mid: Table, source: SourceId, id: JobId, row: Job, moment: Time, explain: Explain)
    requires mid.Keys == before.Keys && id in mid && mid[id] == before[id] && before[id].source == source
    requires forall k | k in mid && before[k].source == source :: mid[k] == before[k]
    requires forall k :: ActiveOn(mid, k, source) <==> ActiveOn(before, k, source)
    requires CollapsedRow(mid, id, row, moment, explain)
    ensures CollapsedRow(before, id, row, moment, explain)
  {
    assert forall k :: IsKeeper(mid, k, source) <==> IsKeeper(before, k, source);
  }

  lemma {:induction false} OneMoreSource(before: Table, mid: Table, after: Table, done: seq<SourceId>, source: SourceId, moment: Time, explain: Explain)
    requires CollapsedFor(before, mid, done, moment, explain) && source !in done
    requires CollapsedSource(mid, after, source, moment, explain)
    ensures CollapsedFor(before, after, done + [source], moment, explain)
  {
    SameSourceRows(before, mid, done, source, moment, explain);
    forall id | id in before
      ensures after[id].source == before[id].source
      ensures if before[id].source in done + [source] then CollapsedRow(before, id, after[id], moment, explain) else after[id] == before[id]
    {
      if before[id].source == source {
        if ActiveOn(mid, id, source) {
          SameCollapse(before, mid, source, id, after[id], moment, explain);
        }
      }
    }
  }

  lemma OtherSourcesStand(before: Table, after: Table, sources: seq<SourceId>, moment: Time, explain: Explain)
    requires CollapsedFor(before, after, sources, moment, explain)
    requires forall source :: source in sources <==> source in DuplicateSources(before)
    ensures Collapsed(before, after, moment, explain)
  {
    hide DuplicateSources;
    forall id | id in before ensures CollapsedRow(before, id, after[id], moment, explain) {
      if before[id].source !in sources && before[id].Active() {
        LoneActiveIsKeeper(before, id);
      }
    }
  }

  // ---------------------------------------------------------------- what it establishes

  /** After the migration the unique index can be built, and no source lost its last active row. */
  lemma {:induction false} CollapseEstablishesMutex(t: Table, t': Table, moment: Time, explain: Explain)
    requires Collapsed(t, t', moment, explain)
    ensures OneActivePerSource(t')
    ensures forall source, id | ActiveOn(t', id, source) :: t'[id] == t[id] && IsKeeper(t, id, source)
    ensures forall source | SourceBusy(t, source) :: SourceBusy(t', source)
  {
    forall id, source | ActiveOn(t', id, source) ensures t'[id] == t[id] && IsKeeper(t, id, source) {
      assert CollapsedRow(t, id, t'[id], moment, explain);
    }
    forall a, b, source | ActiveOn(t', a, source) && ActiveOn(t', b, source) ensures a == b {
      if a != b {
        OnlyOneKeeper(t, a, b, source);
      }
    }
    forall source | SourceBusy(t, source) ensures SourceBusy(t', source) {
      ActiveRowsAreOrdered(t, source);
      var id :| ActiveOn(t, id, source);
      var keeper := ActiveRows(t, source)[0];
      assert CollapsedRow(t, keeper, t'[keeper], moment, explain);
      assert ActiveOn(t', keeper, source);
    }
  }

  /** Rows of sources without duplicates, and finished rows, are untouched. */
  lemma {:induction false} CollapseTouchesOnlyDuplicates(t: Table, t': Table, moment: Time, explain: Explain, id: JobId)
    requires Collapsed(t, t', moment, explain) && id in t
    requires (t[id].status.Final() || t[id].source !in DuplicateSources(t))
    ensures t'[id] == t[id]
  {
    assert CollapsedRow(t, id, t'[id], moment, explain);
    if t[id].Active() {
      LoneActiveIsKeeper(t, id);
    }
  }

  // ---------------------------------------------------------------- the two ends, column by column

  /** `t` is the first value set in a list of nullable times. */
  ghost predicate FirstSet(times: seq<Option<Time>>, t: Time) {
    exists i | 0 <= i < |times| :: times[i] == Some(t) && forall j | 0 <= j < i :: times[j] == None
  }

  /** `a` was picked, else started, else queued, else created after `b`, or at the same time with a larger id. */
  ghost predicate Newer(t: Table, a: JobId, b: JobId)
    requires a in t && b in t
  {
    forall x, y
      | FirstSet([t[a].pickedAt, t[a].startedAt, t[a].queuedAt, Some(t[a].createdAt)], x)
        && FirstSet([t[b].pickedAt, t[b].startedAt, t[b].queuedAt, Some(t[b].createdAt)], y)
      :: x > y || (x == y && a > b)
  }

  lemma FirstSetIsCoalesce(times: seq<Option<Time>>, t: Time)
    requires |times| == 4 && FirstSet(times, t)
    ensures times[0].Or(times[1]).Or(times[2]).Or(times[3]) == Some(t)
  {
  }

  lemma MoreRecentIsNewer(t: Table, a: JobId, b: JobId)
    requires a in t && b in t && a != b && MoreRecent(t, a, b)
    ensures Newer(t, a, b)
  {
    var xs := [t[a].pickedAt, t[a].startedAt, t[a].queuedAt, Some(t[a].createdAt)];
    var ys := [t[b].pickedAt, t[b].startedAt, t[b].queuedAt, Some(t[b].createdAt)];
    forall x, y | FirstSet(xs, x) && FirstSet(ys, y) ensures x > y || (x == y && a > b) {
      FirstSetIsCoalesce(xs, x);
      FirstSetIsCoalesce(ys, y);
    }
  }

  lemma CoalesceIsFirstSet(times: seq<Option<Time>>, t: Time)
    requires |times| == 4 && times[0].Or(times[1]).Or(times[2]).Or(times[3]) == Some(t)
    ensures FirstSet(times, t)
  {
    if times[0].Some? { assert times[0] == Some(t); }
    else if times[1].Some? { assert times[1] == Some(t); }
    else if times[2].Some? { assert times[2] == Some(t); }
    else { assert times[3] == Some(t); }
  }

  /** What the migration leaves of two active rows of one source of which one survives: the survivor is
      the newer one; the other is failed and closed, and everything else about it stands. */
  lemma {:induction false} SurvivorAndLoser(t: Table, t': Table, moment: Time, explain: Explain, survivor: JobId, loser: JobId)
    requires Collapsed(t, t', moment, explain) && survivor in t' && t'[survivor].Active()
    requires loser in t && loser != survivor && t[loser].Active() && t[loser].source == t[survivor].source
    ensures t'[survivor] == t[survivor] && Newer(t, survivor, loser)
    ensures var row := t'[loser];
            && row.status == Failed && row.finishedAt == Some(moment) && row.timeoutAt == None && row.leaseExpiresAt == None
            && row.heartbeatAt == (if t[loser].heartbeatAt.Some? then t[loser].heartbeatAt else Some(moment))
            && row.startedAt.Some?
            && FirstSet([t[loser].startedAt, t[loser].pickedAt, t[loser].queuedAt, Some(t[loser].createdAt)], row.startedAt.value)
            && row == t[loser].(status := row.status, startedAt := row.startedAt, finishedAt := row.finishedAt,
                                heartbeatAt := row.heartbeatAt, timeoutAt := None, leaseExpiresAt := None, message := row.message)
    ensures (t[loser].message.None? || AllSpaces(t[loser].message.value)) ==> t'[loser].message == Some(explain(survivor))
    ensures forall left, core, right
              | && t[loser].message == Some(left + core + right) && AllSpaces(left) && AllSpaces(right)
                && core != "" && !IsSpace(core[0]) && !IsSpace(core[|core| - 1])
              :: t'[loser].message == Some(core + "; " + explain(survivor))
  {
    var source := t[loser].source;
    assert CollapsedRow(t, survivor, t'[survivor], moment, explain) && CollapsedRow(t, loser, t'[loser], moment, explain);
    assert IsKeeper(t, survivor, source) && MoreRecent(t, survivor, loser);
    MoreRecentIsNewer(t, survivor, loser);
    OnlyOneKeeper(t, survivor, loser, source);
    var keeper :| IsKeeper(t, keeper, source) && t'[loser] == FailedDuplicate(t[loser], moment, explain(keeper));
    assert keeper == survivor by { if keeper != survivor { OnlyOneKeeper(t, survivor, keeper, source); } }
    hide MoreRecent, Newer;
    CoalesceIsFirstSet([t[loser].startedAt, t[loser].pickedAt, t[loser].queuedAt, Some(t[loser].createdAt)], t'[loser].startedAt.value);
    AppendedExactly(t[loser].message, explain(survivor));
  }

  lemma AppendedExactly(existing: Option<string>, extra: string)
    ensures (existing.None? || AllSpaces(existing.value)) ==> AppendMessage(existing, extra) == extra
    ensures forall left, core, right
              | && existing == Some(left + core + right) && AllSpaces(left) && AllSpaces(right)
                && core != "" && !IsSpace(core[0]) && !IsSpace(core[|core| - 1])
              :: AppendMessage(existing, extra) == core + "; " + extra
  {
    if existing.Some? { StripOfBlank(existing.value); }
    forall left, core, right
      | && existing == Some(left + core + right) && AllSpaces(left) && AllSpaces(right)
        && core != "" && !IsSpace(core[0]) && !IsSpace(core[|core| - 1])
      ensures AppendMessage(existing, extra) == core + "; " + extra
    {
      StripOfPadded(left, core, right);
    }
  }
}
