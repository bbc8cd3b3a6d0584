/** Retries of failed jobs: who may be retried, how often, and what stays true of it. */
module RetryGraph {
  import opened Options
  import opened CrawlJobs
  import opened JobLedger
  import opened CrawlProtocol
  import opened CrawlRuns

  /** What the guard checked about the original job, as far as nothing can undo it. */
  ghost predicate ProperOriginal(t: Table, original: JobId, source: SourceId) {
    && original in t
    && (t[original].status.Failed? || t[original].status.Partial?)
    && t[original].retryOf.None?
    && t[original].source == source
  }

  ghost predicate RetriesAreProper(s: Sys) {
    && (forall id, original | RetryOf(s.Jobs(), id, original) ::
          ProperOriginal(s.Jobs(), original, s.Jobs()[id].source))
    && (forall c | c in s.creators && s.creators[c].retryOf.Some? ::
          ProperOriginal(s.Jobs(), s.creators[c].retryOf.value, s.creators[c].source))
  }

  /** An unguarded retry request whose original would have passed the guard's tests of the original. */
  ghost predicate EntersProperly(s: Sys, e: Event) {
    e.RequestRetryUnguarded? ==> ProperOriginal(s.Jobs(), e.original, e.source)
  }

  /** Every retry of the run is guarded or might as well have been. */
  ghost predicate RetriesEnterProperly(events: seq<Event>) {
    events == [] ||
    (RetriesEnterProperly(events[..|events| - 1]) && EntersProperly(Run(Init(), events[..|events| - 1]), events[|events| - 1]))
  }

  /** In particular, runs without unguarded requests. */
  lemma {:induction false} GuardedRunsEnterProperly(events: seq<Event>)
    requires forall i | 0 <= i < |events| :: !events[i].RequestRetryUnguarded?
    ensures RetriesEnterProperly(events)
  {
    if events != [] {
      hide Run;
      GuardedRunsEnterProperly(events[..|events| - 1]);
    }
  }

  lemma CreatorsComeFromRequests(s: Sys, e: Event)
    requires EntersProperly(s, e)
    ensures forall c | c in Next(s, e).creators ::
              var request := Next(s, e).creators[c];
              || (c in s.creators && request.retryOf == s.creators[c].retryOf && request.source == s.creators[c].source)
              || request.retryOf.None?
              || ProperOriginal(s.Jobs(), request.retryOf.value, request.source)
  {
  }

  lemma StepKeepsRetries(s: Sys, e: Event)
    requires Good(s) && RetriesAreProper(s) && EntersProperly(s, e)
    ensures RetriesAreProper(Next(s, e))
  {
    var s' := Next(s, e);
    StepKeepsGood(s, e);
    CreatorsComeFromRequests(s, e);
    forall original: JobId, source | ProperOriginal(s.Jobs(), original, source)
      ensures ProperOriginal(s'.Jobs(), original, source)
    {
    }
    if !e.InsertJob? {
      OnlyInsertsAddRows(s, e);
      assert forall id: JobId, original: JobId | RetryOf(s'.Jobs(), id, original) :: RetryOf(s.Jobs(), id, original);
    } else {
      forall id: JobId, original: JobId | RetryOf(s'.Jobs(), id, original)
        ensures ProperOriginal(s'.Jobs(), original, s'.Jobs()[id].source)
      {
        if id in s.Jobs() {
          assert RetryOf(s.Jobs(), id, original);
        }
      }
    }
  }

  lemma {:induction false} RunKeepsRetries(events: seq<Event>)
    requires RetriesEnterProperly(events)
    ensures Good(Run(Init(), events)) && RetriesAreProper(Run(Init(), events))
  {
    RunKeepsGood(Init(), events);
    if events != [] {
      RunKeepsRetries(events[..|events| - 1]);
      StepKeepsRetries(Run(Init(), events[..|events| - 1]), events[|events| - 1]);
    }
  }

  /** When every retry enters properly: a retry's original exists, failed or ended partial, belongs to
      the same source and is not itself a retry; and it has no other retry. */
  lemma {:induction false} RetryGraphHasDepthOne(events: seq<Event>, id: JobId, other: JobId, original: JobId)
    requires RetriesEnterProperly(events)
    ensures var t := Run(Init(), events).Jobs();
            RetryOf(t, id, original) ==>
              && original in t && original != id
              && (t[original].status.Failed? || t[original].status.Partial?)
              && t[original].retryOf.None?
              && t[original].source == t[id].source
              && (RetryOf(t, other, original) ==> other == id)
  {
    RunKeepsRetries(events);
  }

  /** Even with unguarded retries: at most one retry per job, and originals are older, existing rows. */
  lemma {:induction false} RetriesStayUnique(events: seq<Event>, id: JobId, other: JobId, original: JobId)
    ensures var t := Run(Init(), events).Jobs();
            RetryOf(t, id, original) ==>
              original in t && original < id && (RetryOf(t, other, original) ==> other == id)
  {
    RunKeepsGood(Init(), events);
  }

  /** Two retries of one job that both passed the guard and both saw their source free: whichever
      inserts second is refused and changes no row. */
  lemma {:induction false} LosingRetryChangesNothing(s: Sys, c: CreatorId, c': CreatorId, id: JobId, id': JobId, now: Time, now': Time,
                                  between: seq<Event>)
    requires Good(s) && c in s.creators && s.creators[c].Checked? && s.creators[c].retryOf.Some?
    requires FreshId(s.Jobs(), id) && InsertOutcome(s.Jobs(), s.creators[c].source, s.creators[c].retryOf) == CreatedJob
    ensures var original := s.creators[c].retryOf;
            var s2 := Run(Next(s, InsertJob(c, id, now)), between);
            c' in s2.creators && s2.creators[c'].retryOf == original ==>
              Next(s2, InsertJob(c', id', now')).ledger == s2.ledger
  {
    var original := s.creators[c].retryOf.value;
    var s1 := Next(s, InsertJob(c, id, now));
    var s2 := Run(s1, between);
    assert RetryOf(s1.Jobs(), id, original) by { hide Run, Good, Coherent; }
    StepKeepsGood(s, InsertJob(c, id, now));
    hide Next, Coherent, InsertOutcome;
    RunKeepsGood(s1, between);
    hide Run, Good;
    if c' in s2.creators && s2.creators[c'].retryOf == Some(original) {
      RetriedIsRefused(s2, c', id', now', id, original);
    }
  }

  lemma RetriedIsRefused(s: Sys, c: CreatorId, id: JobId, now: Time, retry: JobId, original: JobId)
    requires RetryOf(s.Jobs(), retry, original)
    requires c in s.creators ==> s.creators[c].retryOf == Some(original)
    ensures Next(s, InsertJob(c, id, now)).ledger == s.ledger
  {
  }

  /** The three steps of a retry through an unguarded entry point. */
  function UnguardedRetry(c: CreatorId, original: JobId, source: SourceId, id: JobId, now: Time): seq<Event> {
    [RequestRetryUnguarded(c, original, source), CheckActive(c), InsertJob(c, id, now)]
  }

  lemma {:induction false} RunSplits(s: Sys, first: seq<Event>, second: seq<Event>)
    ensures Run(s, first + second) == Run(Run(s, first), second)
  {
    var all := first + second;
    if second == [] {
      assert all == first;
    } else {
      assert all[..|all| - 1] == first + second[..|second| - 1] && all[|all| - 1] == second[|second| - 1];
      RunSplits(s, first, second[..|second| - 1]);
    }
  }

  lemma OneMore(s: Sys, events: seq<Event>, e: Event)
    ensures Run(s, events + [e]) == Next(Run(s, events), e)
  {
    assert (events + [e])[..|events|] == events;
  }

  lemma ThreeSteps(s: Sys, a: Event, b: Event, c: Event)
    ensures Run(s, [a, b, c]) == Next(Next(Next(s, a), b), c)
  {
    hide Next;
    OneMore(s, [], a);
    OneMore(s, [a], b);
    OneMore(s, [a, b], c);
    hide Run;
    assert [] + [a] == [a] && [a] + [b] == [a, b] && [a, b] + [c] == [a, b, c];
    assert Run(s, []) == s by { NoSteps(s); }
  }

  lemma NoSteps(s: Sys)
    ensures Run(s, []) == s
  {
  }

  lemma UnguardedRetryInserts(s: Sys, c: CreatorId, original: JobId, source: SourceId, id: JobId, now: Time)
    requires c !in s.creators && FreshId(s.Jobs(), id)
    requires original in s.Jobs() && !Retried(s.Jobs(), original) && !SourceBusy(s.Jobs(), source)
    ensures var s' := Run(s, UnguardedRetry(c, original, source, id, now));
            && s'.creators == s.creators
            && s'.Jobs() == s.Jobs()[id := NewRow(source, ManualRetry, Some(original), now, None)]
  {
    ThreeSteps(s, RequestRetryUnguarded(c, original, source), CheckActive(c), InsertJob(c, id, now));
  }

  /** A retry through an unguarded entry point that is accepted keeps the retry graph proper exactly if
      its original passes the guard's tests: it failed or ended partial, is no retry, and has that source. */
  lemma {:induction false} UnguardedRetryExactly(s: Sys, c: CreatorId, original: JobId, source: SourceId, id: JobId, now: Time)
    requires Good(s) && RetriesAreProper(s) && c !in s.creators && FreshId(s.Jobs(), id)
    requires original in s.Jobs() && !Retried(s.Jobs(), original) && !SourceBusy(s.Jobs(), source)
    ensures var s' := Run(s, UnguardedRetry(c, original, source, id, now));
            && RetryOf(s'.Jobs(), id, original)
            && (RetriesAreProper(s') <==> ProperOriginal(s.Jobs(), original, source))
  {
    UnguardedRetryInserts(s, c, original, source, id, now);
    hide Run, Coherent, WinnersAgree;
    var s' := Run(s, UnguardedRetry(c, original, source, id, now));
    assert id !in s.Jobs() && s'.Jobs()[id].source == source;
    assert RetryOf(s'.Jobs(), id, original);
    assert forall k: JobId, o: JobId | k != id :: RetryOf(s'.Jobs(), k, o) <==> RetryOf(s.Jobs(), k, o);
    assert forall o, src | o != id :: ProperOriginal(s'.Jobs(), o, src) <==> ProperOriginal(s.Jobs(), o, src);
  }

  const NO_NOTE := Note(None, None)

  /** A job that is requested, created, and given up by its dispatcher. */
  function CreateAndGiveUp(request: Event, c: CreatorId, id: JobId, now: Time): seq<Event> {
    [request, CheckActive(c), InsertJob(c, id, now)] + [GiveUpDispatch(id, now, NO_NOTE)]
  }

  lemma CheckedAndInserted(s: Sys, r: Creator, c: CreatorId, id: JobId, now: Time)
    requires c !in s.creators && FreshId(s.Jobs(), id) && r.Requested?
    requires InsertOutcome(s.Jobs(), r.source, r.retryOf) == CreatedJob
    ensures var s' := Next(Next(s.(creators := s.creators[c := r]), CheckActive(c)), InsertJob(c, id, now));
            && s'.creators == s.creators
            && s'.Jobs() == s.Jobs()[id := NewRow(r.source, r.jobType, r.retryOf, now, None)]
  {
  }

  lemma GivenUp(s: Sys, id: JobId, now: Time)
    requires id in s.Jobs() && s.Jobs()[id].status.Pending?
    ensures var s' := Next(s, GiveUpDispatch(id, now, NO_NOTE));
            && s'.creators == s.creators
            && s'.Jobs().Keys == s.Jobs().Keys && (forall k | k in s.Jobs() && k != id :: s'.Jobs()[k] == s.Jobs()[k])
            && s'.Jobs()[id].status == Failed && s'.Jobs()[id].source == s.Jobs()[id].source && s'.Jobs()[id].retryOf == s.Jobs()[id].retryOf
  {
  }

  lemma CreatedAndGivenUp(s: Sys, request: Event, r: Creator, c: CreatorId, id: JobId, now: Time)
    requires c !in s.creators && FreshId(s.Jobs(), id) && r.Requested?
    requires Next(s, request) == s.(creators := s.creators[c := r])
    requires InsertOutcome(s.Jobs(), r.source, r.retryOf) == CreatedJob
    ensures var s' := Run(s, CreateAndGiveUp(request, c, id, now));
            && s'.creators == s.creators
            && s'.Jobs().Keys == s.Jobs().Keys + {id} && (forall k | k in s.Jobs() :: s'.Jobs()[k] == s.Jobs()[k])
            && s'.Jobs()[id].status == Failed && s'.Jobs()[id].source == r.source && s'.Jobs()[id].retryOf == r.retryOf
  {
    hide Next, Run, InsertOutcome;
    ThreeSteps(s, request, CheckActive(c), InsertJob(c, id, now));
    CheckedAndInserted(s, r, c, id, now);
    OneMore(s, [request, CheckActive(c), InsertJob(c, id, now)], GiveUpDispatch(id, now, NO_NOTE));
    GivenUp(Run(s, [request, CheckActive(c), InsertJob(c, id, now)]), id, now);
  }

  /** Job 1 is created and fails, its guarded retry 2 fails, and job 2 is retried through an unguarded
      entry point as job 3. */
  function ChainedRetry(): seq<Event> {
    CreateAndGiveUp(RequestCrawl(0, 0, Manual), 0, 1, 0)
    + CreateAndGiveUp(RequestRetry(1, 1), 1, 2, 1)
    + UnguardedRetry(2, 2, 0, 3, 2)
  }

  /** The failing input: from the empty table, a run to a retry of a retry. */
  lemma {:induction false} UnguardedRetryMayChain()
    ensures var t := Run(Init(), ChainedRetry()).Jobs();
            RetryOf(t, 3, 2) && RetryOf(t, 2, 1)
  {
    hide Run, CreateAndGiveUp, UnguardedRetry;
    var first := CreateAndGiveUp(RequestCrawl(0, 0, Manual), 0, 1, 0);
    var second := CreateAndGiveUp(RequestRetry(1, 1), 1, 2, 1);
    var failed := Run(Init(), first);
    CreatedAndGivenUp(Init(), RequestCrawl(0, 0, Manual), Requested(0, Manual, None), 0, 1, 0);
    assert MayBeRetried(failed.Jobs(), 1);
    CreatedAndGivenUp(failed, RequestRetry(1, 1), Requested(0, ManualRetry, Some(1)), 1, 2, 1);
    UnguardedRetryInserts(Run(failed, second), 2, 2, 0, 3, 2);
    RunSplits(Init(), first, second);
    RunSplits(Init(), first + second, UnguardedRetry(2, 2, 0, 3, 2));
  }
}
