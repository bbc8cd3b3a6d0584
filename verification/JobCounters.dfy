/** The counters on a job agree with the tables the job's writes filled. */
module JobCounters {
  import opened Options
  import opened CrawlJobs
  import opened NoticeTables
  import opened NoticeCoherence
  import opened RunOutcome
  import Protocol = CrawlProtocol

  predicate RepeatedContent(w: Write, j: JobId) {
    w.RawWrite? && w.job == Some(j) && !w.existed && w.duplicateContent
  }

  /** Documents the job stored under a new url whose content was already there. */
  function RepeatedContents(log: seq<Write>, j: JobId): nat {
    if log == [] then 0
    else RepeatedContents(log[..|log| - 1], j) + One(RepeatedContent(log[|log| - 1], j))
  }

  /** The rows of the job in the error table. */
  function ErrorRows(errors: seq<Option<JobId>>, j: JobId): nat {
    multiset(errors)[Some(j)]
  }

  ghost predicate Balanced(c: Counters, errorRows: nat, repeated: nat) {
    && c.errorCount == errorRows
    && c.pagesFetched == c.documentsSaved
    && c.deduplicatedCount == c.recordsUpdated + c.duplicatesSuppressed + repeated
  }

  ghost predicate Conserved(s: Store) {
    forall j | j in s.db.jobs :: Balanced(s.db.jobs[j], ErrorRows(s.db.errors, j), RepeatedContents(s.log, j))
  }

  /** The counters one committed write adds to its job. */
  ghost predicate Adds(w: Write, d: Counters) {
    && d.errorCount == One(w.ErrorWrite?)
    && d.pagesFetched == d.documentsSaved
    && d.deduplicatedCount == d.recordsUpdated + d.duplicatesSuppressed + One(w.RawWrite? && !w.existed && w.duplicateContent)
  }

  /** A committed write credits only the job it names, or no job at all. */
  ghost predicate Credits(db: Db, db': Db, w: Write, d: Counters) {
    && db'.jobs == Counted(db.jobs, w.job, d)
    && Adds(w, d) && Earns(w, d)
    && db'.errors == if w.ErrorWrite? then db.errors + [w.job] else db.errors
  }

  lemma RepeatedAppended(log: seq<Write>, w: Write, j: JobId)
    ensures RepeatedContents(log + [w], j) == RepeatedContents(log, j) + One(RepeatedContent(w, j))
  {
    assert (log + [w])[..|log|] == log;
  }

  lemma CreditKeepsConservation(s: Store, s': Store, w: Write, d: Counters)
    requires Conserved(s) && s'.log == s.log + [w] && Credits(s.db, s'.db, w, d)
    ensures Conserved(s')
  {
    forall j | j in s'.db.jobs
      ensures Balanced(s'.db.jobs[j], ErrorRows(s'.db.errors, j), RepeatedContents(s'.log, j))
    {
      assert j in s.db.jobs;
      RepeatedAppended(s.log, w, j);
      hide RepeatedContents;
      if w.ErrorWrite? {
        assert multiset(s'.db.errors)[Some(j)] == multiset(s.db.errors)[Some(j)] + One(w.job == Some(j));
      }
    }
  }

  /** The counters of a committed write. */
  function CreditOf(w: Write): Counters {
    match w
    case NoticeWrite(_, _, _, created) => Upserted(created).(noticesUpserted := 1)
    case SuppressedWrite(_) => NO_COUNTS.(deduplicatedCount := 1, duplicatesSuppressed := 1)
    case VersionWrite(_, _, _, created, _, _, _) => Upserted(created)
    case AttachmentWrite(_, _, _, replaced) => if replaced.Some? then Upserted(!replaced.value) else NO_COUNTS
    case RawWrite(_, role, existed, duplicate) => RawCounters(role, existed, duplicate)
    case ErrorWrite(_) => NO_COUNTS.(errorCount := 1)
  }

  lemma CreditsAreEarned(w: Write)
    ensures Adds(w, CreditOf(w)) && Earns(w, CreditOf(w))
  {
  }

  lemma CommitCredits(db: Db, norm: Normaliser, e: Event) returns (d: Counters)
    requires EffectOf(db, norm, e).Committed?
    ensures var effect := EffectOf(db, norm, e); Credits(db, effect.db, effect.write, d)
  {
    hide Resolve, HashTaken, AlreadyStored, ChooseVersion, VersionRow, WithVersion, FindRaw, FindAttachment, AttachedVersion, DocumentWithContent, Counted,
      RawCounters, Upserted, Adds, Earns, RequestedNo;
    var w := EffectOf(db, norm, e).write;
    d := CreditOf(w);
    CreditsAreEarned(w);
    if w.AttachmentWrite? && w.replaced.None? {
      NothingCounted(db.jobs, w.job);
    }
  }

  lemma NothingCounted(jobs: map<JobId, Counters>, job: Option<JobId>)
    ensures Counted(jobs, job, NO_COUNTS) == jobs
  {
  }

  lemma {:induction false} StepKeepsConservation(s: Store, norm: Normaliser, e: Event)
    requires Conserved(s)
    ensures Conserved(Next(s, norm, e)) && Next(s, norm, e).db.jobs.Keys == s.db.jobs.Keys
  {
    hide EffectOf, Conserved;
    if FreshEvent(s.db, e) && EffectOf(s.db, norm, e).Committed? {
      var d := CommitCredits(s.db, norm, e);
      CreditKeepsConservation(s, Next(s, norm, e), EffectOf(s.db, norm, e).write, d);
    }
  }

  lemma {:induction false} RunKeepsConservation(jobs: set<JobId>, norm: Normaliser, events: seq<Event>)
    ensures Conserved(Run(Empty(jobs), norm, events))
  {
    if events == [] {
      assert Run(Empty(jobs), norm, events) == Empty(jobs);
    } else {
      hide Next, Conserved;
      RunKeepsConservation(jobs, norm, events[..|events| - 1]);
      StepKeepsConservation(Run(Empty(jobs), norm, events[..|events| - 1]), norm, events[|events| - 1]);
    }
  }

  /** After any run, for every job: error_count is the number of its error rows, pages_fetched equals
      documents_saved, and deduplicated_count splits into updated records, suppressed duplicates and
      new documents with known content. */
  lemma {:induction false} CountersAreConserved(jobs: set<JobId>, norm: Normaliser, events: seq<Event>, j: JobId)
    ensures var s := Run(Empty(jobs), norm, events);
            j in s.db.jobs ==>
              var c := s.db.jobs[j];
              && c.errorCount == multiset(s.db.errors)[Some(j)]
              && c.pagesFetched == c.documentsSaved
              && c.deduplicatedCount == c.recordsUpdated + c.duplicatesSuppressed + RepeatedContents(s.log, j)
  {
    RunKeepsConservation(jobs, norm, events);
    hide Run;
    var s := Run(Empty(jobs), norm, events);
    assert j in s.db.jobs ==> Balanced(s.db.jobs[j], ErrorRows(s.db.errors, j), RepeatedContents(s.log, j));
  }

  /** Hence a finalised run is succeeded exactly when its spider exited with code 0 and the error
      table holds no row of the job. */
  lemma {:induction false} SucceededIffNoErrorRow(jobs: set<JobId>, norm: Normaliser, events: seq<Event>, j: JobId, rows: seq<ErrorRow>,
                               pagesScraped: int, returnCode: int)
    requires j in Run(Empty(jobs), norm, events).db.jobs
    requires |rows| == ErrorRows(Run(Empty(jobs), norm, events).db.errors, j)
    ensures var db := Run(Empty(jobs), norm, events).db;
            var c := db.jobs[j];
            var reason := InferFailureReason(rows, c.listItemsSeen, c.detailPagesFetched, pagesScraped, returnCode);
            InferFinalStatus(c.errorCount, reason, returnCode) == Succeeded <==> returnCode == 0 && Some(j) !in db.errors
  {
    CountersAreConserved(jobs, norm, events, j);
    hide Run;
    var db := Run(Empty(jobs), norm, events).db;
    assert Some(j) in db.errors <==> Some(j) in multiset(db.errors);
    assert db.jobs[j].errorCount == |rows|;
    SucceedsIffCleanRun(rows, db.jobs[j].listItemsSeen, db.jobs[j].detailPagesFetched, pagesScraped, returnCode);
  }

  lemma RunningJobStoresStatus(s: Protocol.Sys, w: Protocol.WorkerId, status: Status, now: Time, note: Protocol.Note)
    requires Protocol.InPhase(s, w, Protocol.SpiderDone) && s.workers[w].job in s.Jobs()
    requires s.Jobs()[s.workers[w].job].status.Running? && status.Final()
    ensures var j := s.workers[w].job;
            var s' := Protocol.Next(s, Protocol.FinishJob(w, status, now, note));
            j in s'.Jobs() && s'.Jobs()[j].status == status && s'.workers[w].phase == Protocol.Exited(0)
  {
  }

  /** What the worker of a running job stores when its spider has exited: succeeded exactly if the exit
      code is 0 and the error table holds no row of the job, given that the row carries the counters
      the job's writes left on it.  (A job that is no longer running keeps its status.) */
  lemma {:induction false} StoredStatus(jobs: set<JobId>, norm: Normaliser, events: seq<Event>, rows: seq<ErrorRow>,
                                        pagesScraped: int, returnCode: int, s: Protocol.Sys, w: Protocol.WorkerId, now: Time, note: Protocol.Note)
    requires Protocol.InPhase(s, w, Protocol.SpiderDone) && s.workers[w].job in s.Jobs()
    requires s.Jobs()[s.workers[w].job].status.Running?
    requires var db := Run(Empty(jobs), norm, events).db;
             var j := s.workers[w].job;
             j in db.jobs && s.Jobs()[j].counters == db.jobs[j] && |rows| == ErrorRows(db.errors, j)
    ensures var db := Run(Empty(jobs), norm, events).db;
            var j := s.workers[w].job;
            var c := s.Jobs()[j].counters;
            var reason := InferFailureReason(rows, c.listItemsSeen, c.detailPagesFetched, pagesScraped, returnCode);
            var s' := Protocol.Next(s, Protocol.FinishJob(w, InferFinalStatus(c.errorCount, reason, returnCode), now, note));
            && j in s'.Jobs() && s'.Jobs()[j].status.Final()
            && (s'.Jobs()[j].status == Succeeded <==> returnCode == 0 && Some(j) !in db.errors)
  {
    var j := s.workers[w].job;
    var c := s.Jobs()[j].counters;
    SucceededIffNoErrorRow(jobs, norm, events, j, rows, pagesScraped, returnCode);
    hide Run, InferFailureReason, Protocol.Next;
    var reason := InferFailureReason(rows, c.listItemsSeen, c.detailPagesFetched, pagesScraped, returnCode);
    RunningJobStoresStatus(s, w, InferFinalStatus(c.errorCount, reason, returnCode), now, note);
  }

  // ---------------------------------------------------------------- every counter as a sum over the writes

  /** The sum of an amount over the committed writes of a job. */
  function Sum(log: seq<Write>, j: JobId, amount: Write -> nat): nat {
    if log == [] then 0
    else
      var w := log[|log| - 1];
      Sum(log[..|log| - 1], j, amount) + if w.job == Some(j) then amount(w) else 0
  }

  function Documents(): Write -> nat { (w: Write) => if w.RawWrite? then 1 else 0 }

  function Upserts(): Write -> nat { (w: Write) => if w.NoticeWrite? then 1 else 0 }

  function Suppressions(): Write -> nat { (w: Write) => if w.SuppressedWrite? then 1 else 0 }

  function Errors(): Write -> nat { (w: Write) => if w.ErrorWrite? then 1 else 0 }

  function DetailPages(): Write -> nat { (w: Write) => if w.RawWrite? && w.role.DetailPage? then 1 else 0 }

  function ItemsSeen(): Write -> nat { (w: Write) => if w.RawWrite? && w.role.ListPage? then w.role.seen else 0 }

  function ItemsUnique(): Write -> nat { (w: Write) => if w.RawWrite? && w.role.ListPage? then w.role.unique else 0 }

  function ItemsSkipped(): Write -> nat { (w: Write) => if w.RawWrite? && w.role.ListPage? then w.role.skipped else 0 }

  /** The write added a row to the table it is about. */
  predicate AddsARow(w: Write) {
    match w
    case NoticeWrite(_, _, _, created) => created
    case VersionWrite(_, _, _, created, _, _, _) => created
    case AttachmentWrite(_, _, _, replaced) => replaced == Some(false)
    case RawWrite(_, _, existed, _) => !existed
    case _ => false
  }

  /** The write changed a row that was there. */
  predicate Changes(w: Write) {
    match w
    case NoticeWrite(_, _, _, created) => !created
    case VersionWrite(_, _, _, created, _, _, _) => !created
    case AttachmentWrite(_, _, _, replaced) => replaced == Some(true)
    case RawWrite(_, _, existed, _) => existed
    case _ => false
  }

  function Insertions(): Write -> nat { (w: Write) => if AddsARow(w) then 1 else 0 }

  function Updates(): Write -> nat { (w: Write) => if Changes(w) then 1 else 0 }

  function Duplicates(): Write -> nat {
    (w: Write) => if Changes(w) || w.SuppressedWrite? || (w.RawWrite? && w.duplicateContent) then 1 else 0
  }

  ghost predicate Sums(c: Counters, log: seq<Write>, j: JobId) {
    && c.pagesFetched == Sum(log, j, Documents()) && c.documentsSaved == Sum(log, j, Documents())
    && c.noticesUpserted == Sum(log, j, Upserts()) && c.duplicatesSuppressed == Sum(log, j, Suppressions())
    && c.errorCount == Sum(log, j, Errors()) && c.detailPagesFetched == Sum(log, j, DetailPages())
    && c.listItemsSeen == Sum(log, j, ItemsSeen()) && c.listItemsUnique == Sum(log, j, ItemsUnique())
    && c.listItemsSkipped == Sum(log, j, ItemsSkipped())
    && c.recordsInserted == Sum(log, j, Insertions()) && c.recordsUpdated == Sum(log, j, Updates())
    && c.deduplicatedCount == Sum(log, j, Duplicates())
  }

  /** What one write adds to its job, amount by amount. */
  ghost predicate Earns(w: Write, d: Counters) {
    && d.pagesFetched == Documents()(w) && d.documentsSaved == Documents()(w)
    && d.noticesUpserted == Upserts()(w) && d.duplicatesSuppressed == Suppressions()(w)
    && d.errorCount == Errors()(w) && d.detailPagesFetched == DetailPages()(w)
    && d.listItemsSeen == ItemsSeen()(w) && d.listItemsUnique == ItemsUnique()(w) && d.listItemsSkipped == ItemsSkipped()(w)
    && d.recordsInserted == Insertions()(w) && d.recordsUpdated == Updates()(w) && d.deduplicatedCount == Duplicates()(w)
  }

  lemma SumAppended(log: seq<Write>, w: Write, j: JobId, amount: Write -> nat)
    ensures Sum(log + [w], j, amount) == Sum(log, j, amount) + if w.job == Some(j) then amount(w) else 0
  {
    assert (log + [w])[..|log|] == log;
  }

  lemma SumsAppended(c: Counters, c': Counters, d: Counters, log: seq<Write>, w: Write, j: JobId)
    requires Sums(c, log, j) && Earns(w, d) && c' == (if w.job == Some(j) then c.Plus(d) else c)
    ensures Sums(c', log + [w], j)
  {
    hide Sum, AddsARow, Changes;
    SumAppended(log, w, j, Documents());
    SumAppended(log, w, j, Upserts());
    SumAppended(log, w, j, Suppressions());
    SumAppended(log, w, j, Errors());
    SumAppended(log, w, j, DetailPages());
    SumAppended(log, w, j, ItemsSeen());
    SumAppended(log, w, j, ItemsUnique());
    SumAppended(log, w, j, ItemsSkipped());
    SumAppended(log, w, j, Insertions());
    SumAppended(log, w, j, Updates());
    SumAppended(log, w, j, Duplicates());
  }

  /** After any run, every counter of every job is the sum of what the job's committed writes did:
      documents, list items, detail pages, errors, rows added and changed, and duplicates met. */
  lemma {:induction false} CountersAreSums(jobs: set<JobId>, norm: Normaliser, events: seq<Event>, j: JobId)
    ensures var s := Run(Empty(jobs), norm, events); j in s.db.jobs ==> Sums(s.db.jobs[j], s.log, j)
  {
    if events == [] {
      assert Run(Empty(jobs), norm, events) == Empty(jobs);
    } else {
      hide Next, Sums;
      CountersAreSums(jobs, norm, events[..|events| - 1], j);
      StepKeepsSums(Run(Empty(jobs), norm, events[..|events| - 1]), norm, events[|events| - 1], j);
    }
  }

  lemma {:induction false} StepKeepsSums(s: Store, norm: Normaliser, e: Event, j: JobId)
    requires j in s.db.jobs ==> Sums(s.db.jobs[j], s.log, j)
    ensures var s' := Next(s, norm, e); j in s'.db.jobs ==> j in s.db.jobs && Sums(s'.db.jobs[j], s'.log, j)
  {
    hide EffectOf, Sums, Earns;
    if FreshEvent(s.db, e) && EffectOf(s.db, norm, e).Committed? {
      var d := CommitCredits(s.db, norm, e);
      var s' := Next(s, norm, e);
      if j in s'.db.jobs {
        SumsAppended(s.db.jobs[j], s'.db.jobs[j], d, s.log, EffectOf(s.db, norm, e).write, j);
      }
    }
  }
}
