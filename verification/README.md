# Tender crawl verification

This project models the parts of the tender crawling platform where correctness depends on more than
one function, and proves what they promise:

- **The crawl-job lease protocol.** Web creators, dispatchers, detached workers and reconcilers share
  one job table and no lock manager. `CrawlJobs` gives every committed call as a step from a ledger
  (the table and the history of committed changes) to a ledger; `CrawlJobStore` is the job service as
  a class whose methods assign row fields; `CrawlProtocol` is the state machine of all processes, in
  which a run is any sequence of events and an event that is not enabled changes nothing; `JobLedger`
  and `CrawlRuns` hold the invariant, `CrawlGuarantees`, `ClaimSpacing`, `RetryGraph` and
  `DispatchWaiting` the whole-run theorems; `CrawlHistory` says what each call does in a reachable
  state, from the status of the row and the history alone. `JobDispatch` has the dispatcher, the sweep and the worker
  as loops over the store, `MutexMigration` the migration that prepares a legacy table, `RunOutcome`
  the decision on the final status.
- **The notice store.** `NoticeTables` gives every crawler write as a function of the tables, together
  with a log of what was committed; `NoticeWriter` is the writer class. `NoticeCoherence`,
  `VersionHistory`, `NoticeDates`, `NoticeColumns` and `JobCounters` show that after any run the
  tables agree with simple folds over that log, `NoticeIdentity` says which notice and version an item
  becomes, `NoticeReplay` when writing a notice's items again changes counters only.
- **The notice list.** `NoticeListing` models the filter, partition, rank, sort and page query and
  relates it to plain list functions.
- **The list crawl.** `ListPagination` is the spider's page loop against an arbitrary server,
  `ListRequests` compares its detail requests with what that server listed, `PaginationTarget` models
  the next-page links and the expressions in them, and `PaginationLinks` says where a link leads in
  terms of its texts.
- **The URL normal form.** `UrlNormalForm`.

`Options`, `Ordering` and `Text` hold nullable values, sorting by a total order, and string helpers.

Reading notes:

- Times are integers and nothing assumes a monotone clock, except that `DispatchWaiting` speaks of a
  window of time in which no pending lease runs out.
- Rows get primary keys from a sequence: a new key is larger than those handed out before. A row whose
  key was drawn earlier but that is committed after one with a larger key is not modelled.
- Where several rows match a lookup, the one with the lowest id is taken; a write that violates a
  constraint leaves everything as it was.
- docs/crawl-job.md calls finished jobs final (line 29). The code still lets a job be finished again with
  the status it already has, which rewrites its finish time and texts. `CrawlGuarantees.LateWorkerCannotOverturn` states exactly when a late finish changes
  anything; the status never changes.
- The reconcile inside a job creation is not flushed before the creation looks for active jobs, so a
  lapsed job still blocks its source in that call. `CrawlGuarantees.LapsedJobBlocksUntilReconciled`
  states this and that a committed reconcile lifts it.
- Only under the default sort is the deduplicated list the full list with first occurrences kept;
  `NoticeListing.FirstOccurrencesExactly` says so, and `NoticeListing.DedupKeepsLeaders` says what the
  list is under every sort.
- The base spider's notice item and version item of one page carry different keys, because only the
  notice item knows the page's address, so a repeated notice item is not suppressed.
  `NoticeReplay.SuppressedExactly` says when it is, `NoticeReplay.BasePairIsRestamped` what happens
  otherwise, and `NoticeReplay.PairReplayIsANoOp` that the pair as a whole still changes nothing.
- Without in-run deduplication and without a page limit a server can keep a list crawl going for ever;
  `ListPagination.BoundedExactly` says so.

## Model

| member | source | states |
|---|---|---|
| CrawlJobs.SelectionIsEarliestLapsed | app/services/crawl_job_service.py:621-635 | A reconcile selects only running jobs whose lease has run out, each once, ordered by expiry and id; without a limit all of them, with a limit as many as it allows and none passed over that lapsed earlier |
| CrawlJobStore.ReconcileExpiresExactlyTheLapsed | app/services/crawl_job_service.py:615-638 | An unlimited reconcile fails exactly the lapsed running rows and leaves every other row as it is |
| CrawlJobStore.ExpireAllIsPointwise | app/services/crawl_job_service.py:635-638 | The expiry loop changes each selected row once and no other row, whatever the order |
| CrawlJobStore.Store.CreateJob | app/services/crawl_job_service.py:294-358 | Inserting a job under the two unique indexes: the outcome, the new row, no change on conflict, invariant kept |
| CrawlJobStore.Store.ClaimPendingJob | app/services/crawl_job_service.py:360-394 | The conditional claim: succeeds exactly if the job is pending and unclaimed or its lease is over; a lease below one second is refused |
| CrawlJobStore.Store.StartJob | app/services/crawl_job_service.py:396-448 | The conditional start: succeeds exactly if the job is pending; earlier pick and start times are kept |
| CrawlJobStore.Store.HeartbeatJob | app/services/crawl_job_service.py:450-473 | A heartbeat renews the lease of an active job and leaves a finished one alone |
| CrawlJobStore.Store.FinishJob | app/services/crawl_job_service.py:540-582 | Finishing follows the transition table; every refusal leaves the table unchanged |
| CrawlJobStore.Store.FailJobIfActive | app/services/crawl_job_service.py:584-609 | Afterwards the job is final; an active job is failed, a final one untouched |
| CrawlJobStore.Store.RecordJobStats | app/services/crawl_job_service.py:475-538 | Counters are added to the named job and nothing else changes |
| CrawlJobStore.Store.ExpireJob | app/services/crawl_job_service.py:615-638 | Expiring one running row never fails the transition check and keeps the invariant |
| CrawlJobStore.Store.ReconcileExpiredJobs | app/services/crawl_job_service.py:275-285 | The reconcile loop: what it returns, that those jobs are failed, and that without a limit no lapsed job is left |
| CrawlGuarantees.SourceMutex | app/models/crawl_job.py:48-54 | In every interleaving a source has at most one pending or running job |
| CrawlGuarantees.StatusesAreAbsorbing | app/services/crawl_job_service.py:23-29 | Through every continuation a finished job keeps its status and a started one never becomes pending |
| CrawlGuarantees.ExecutedAtMostOnce | app/services/crawl_job_service.py:432-448 | However often a job is claimed and launched, one start succeeds at most, for one worker at most |
| CrawlGuarantees.LosingWorkerIsInert | app/run_crawl_job.py:112-122 | A worker that loses the start exits with code 0; neither the start nor anything it does later changes the system |
| CrawlGuarantees.LateWorkerCannotOverturn | app/services/source_crawl_trigger_service.py:839-903 | A worker whose job was finished behind its back, whether its command returned or raised: its finish keeps the status and changes the ledger exactly if it repeats that status; the failure handler afterwards changes nothing |
| CrawlGuarantees.LeasesAreCoherent | app/services/crawl_job_service.py:384-421 | In every reachable state both lease columns equal the lease of the last entry about the job; pending rows have one exactly if picked, running rows have heartbeat plus lease, final rows none |
| CrawlGuarantees.ReconcileNeedsAFullLease | app/services/crawl_job_service.py:615-638 | A reconcile with any limit fails only jobs that are running and whose full lease has passed since the last start or heartbeat, earliest first, and without a limit all of them; other rows, pending ones included, stand |
| CrawlGuarantees.CreationLooksAtCommittedRows | app/services/source_crawl_trigger_service.py:720-737 | An uninterrupted creation succeeds exactly if no committed row of the source is active and, for a retry, the original exists and has no retry |
| CrawlGuarantees.LapsedJobBlocksUntilReconciled | app/services/source_crawl_trigger_service.py:720-721 | A lapsed job blocks the creation that would expire it; after a committed reconcile only the conditions on a retry's original remain |
| CrawlRuns.StepKeepsGood | app/services/crawl_job_service.py:294-638 | Every step of every process keeps the indexes, the lease invariant and the agreement between winning workers and rows, and moves rows only forward |
| CrawlRuns.RunKeepsGood | app/services/crawl_job_service.py:294-638 | So does every run |
| CrawlHistory.QueueHoldsTheFree | app/services/crawl_job_dispatch_service.py:109-119 | In every reachable state the candidate query lists exactly the pending jobs that were never claimed or whose last lease, read off the history, is over |
| CrawlHistory.QueueIsByTime | app/services/crawl_job_dispatch_service.py:120 | Any two jobs of it: missing queue times first, then by queue time, then by id |
| CrawlHistory.CandidatesAreTheFirst | app/services/crawl_job_dispatch_service.py:121 | A sweep loads a prefix of it: as many as asked for, at least one, or all there are |
| CrawlHistory.ClaimTakesTheFree | app/services/crawl_job_service.py:360-394 | In every reachable state a claim succeeds exactly for such a job, whatever row columns its guard reads; the lease then runs from now on, and otherwise nothing changes |
| CrawlHistory.StartTakesThePending | app/services/crawl_job_service.py:396-448 | In every reachable state a launched worker starts its job exactly if it is pending, and keeps an earlier pick |
| CrawlHistory.HeartbeatRenewsTheLease | app/services/crawl_job_service.py:450-473 | In every reachable state a beat of a crawling worker renews the lease of its running job, and changes nothing once the job is finished |
| CrawlHistory.FinishClosesTheRow | app/services/crawl_job_service.py:540-582 | Finishing any row: which final statuses are accepted, and the closed, dated row with its lease gone and its texts patched |
| CrawlHistory.ReconcileClosesTheLapsed | app/services/crawl_job_service.py:615-638 | In every reachable state an unlimited reconcile closes exactly the running jobs whose lease in the history is over, with the reason spelled out |
| CrawlHistory.InsertAddsABareJob | app/services/crawl_job_service.py:294-358 | An insert succeeds exactly if no row of the source is pending or running and a retry's original exists without another retry; the new row is bare and queued now |
| CrawlHistory.GuardAdmitsExactly | app/services/source_crawl_trigger_service.py:540-564 | The retry endpoint admits exactly failed or partial originals that are no retries and have none |
| ClaimSpacing.ClaimsAreALeaseApart | app/services/crawl_job_service.py:375-388 | In every run two claims of one job are at least the earlier claim's lease apart, with no assumption on the clock |
| RetryGraph.RetryGraphHasDepthOne | app/services/source_crawl_trigger_service.py:540-582 | In every interleaving in which each retry enters through the guard, or through an unguarded entry point with an original that passes its tests, each retry points to an existing failed or partial job of its source that is no retry, and no job has two |
| RetryGraph.GuardedRunsEnterProperly | app/services/source_crawl_trigger_service.py:540-582 | Runs whose retries all enter through the guard are such runs |
| RetryGraph.RetriesStayUnique | app/models/crawl_job.py:43 | With any retries at all, no job has two and retries point to older existing rows |
| RetryGraph.LosingRetryChangesNothing | app/services/source_crawl_trigger_service.py:738-748 | Of two retries of one job that both passed the guard, the second to insert changes no row, whatever happens in between |
| RetryGraph.UnguardedRetryExactly | app/services/source_crawl_trigger_service.py:498-538 | An accepted retry through an unguarded entry point keeps the retry graph proper exactly if its original failed or ended partial, is no retry, and belongs to that source |
| RetryGraph.UnguardedRetryMayChain | app/services/source_crawl_trigger_service.py:498-538 | A run from the empty table in which job 3 retries job 2, which retries job 1 |
| DispatchWaiting.BoundedWaiting | app/services/crawl_job_dispatch_service.py:106-122 | A job with k claimable jobs ahead is loaded by a dispatcher's sweep number k / limit + 1 at the latest unless it was taken before, with any other processes interleaved and no pending lease running out |
| DispatchWaiting.PassedOverMeansFullBatchAhead | app/services/crawl_job_dispatch_service.py:109-122 | A sweep that passes a claimable job over has loaded a full batch of jobs ahead of it |
| JobDispatch.Dispatch | app/services/source_crawl_trigger_service.py:124-230 | Claim, then the attempt loop: launched at the first attempt that works, failed when none does, untouched when the claim is lost; other rows stand and the job is not claimable afterwards |
| JobDispatch.DispatchPendingJobs | app/services/crawl_job_dispatch_service.py:70-104 | One sweep handles every candidate once, each at its own time, leaves none claimable at that time and no other row changed, and its three counts add up |
| JobDispatch.WorkerMain | app/run_crawl_job.py:73-144 | A worker amid other processes: it tries to start exactly the job of its own source and type, with source and spider known; it wins exactly if the start found the job pending, and then comes to a finish; exit code 0 means its status was stored or its lost start changed nothing, and is certain if the command exits and the job is still running; exit code 1 means the job is final or absent |
| JobDispatch.CrawlAndFinish | app/services/source_crawl_trigger_service.py:820-905 | Between start and finish the worker only renews its lease; of a job still running at the finish it stores the target if the command exited and failed if it raised, and success is reported exactly then |
| MutexMigration.Connection.CollapseLegacyActiveDuplicates | alembic/versions/20260322_0011_add_crawl_job_source_mutex.py:57-108 | The nested loops, row by row: a row stands unless it is active and not the most recent active row of its source, then it is failed with a message naming that one |
| MutexMigration.Connection.CollapseSource | alembic/versions/20260322_0011_add_crawl_job_source_mutex.py:77-108 | The inner loop does this for one source and leaves all other rows alone |
| MutexMigration.CollapseEstablishesMutex | alembic/versions/20260322_0011_add_crawl_job_source_mutex.py:40-50 | Afterwards the unique index holds, the survivors are the most recent rows, unchanged, and no source lost its last active job |
| MutexMigration.CollapseTouchesOnlyDuplicates | alembic/versions/20260322_0011_add_crawl_job_source_mutex.py:58-73 | Finished rows and rows of sources without duplicates are untouched |
| MutexMigration.SurvivorAndLoser | alembic/versions/20260322_0011_add_crawl_job_source_mutex.py:25-108 | Of two active rows of one source the survivor is the one picked, else started, else queued, else created last; the other is failed and closed column by column, with the survivor named after its old message |
| RunOutcome.FinalStatusExactly | app/services/source_crawl_trigger_service.py:1144-1191 | The status decided through the failure text is a function of exit code, fetch failures and error counter alone |
| RunOutcome.SucceedsIffCleanRun | app/services/source_crawl_trigger_service.py:1177-1191 | With a true error counter a run succeeds exactly if the exit code is 0 and there is no error row |
| RunOutcome.ReasonExactly | app/services/source_crawl_trigger_service.py:1144-1175 | The failure text in every case: the exit, the first fetch message if nothing was fetched, an empty list, a detail failure, or none |
| NoticeWriter.Writer.ResolveNotice | crawler/tender_crawler/writers/sqlalchemy_writer.py:541-616 | The lookup stages, tried in order, find what the specification finds, or start a new row |
| NoticeWriter.Writer.ApplyNoticeFields | crawler/tender_crawler/writers/sqlalchemy_writer.py:670-708 | Present values overwrite stored ones column by column, absent ones keep them, and the first and latest dates move outwards only |
| NoticeColumns.ColumnsAreLastPresent | crawler/tender_crawler/writers/sqlalchemy_writer.py:585-708 | After any run every column and key of every notice is the last value present among the items written to it; a currency never given is CNY |
| NoticeColumns.VersionColumns | crawler/tender_crawler/writers/sqlalchemy_writer.py:298-351 | A version row holds the item's own values, absent ones included, save title and currency; its archived document is one of the item's url; other versions keep everything but the flag |
| NoticeColumns.AttachedExactly | crawler/tender_crawler/writers/sqlalchemy_writer.py:401-430 | An attachment hangs on the version of the number it names, if the notice has it, else on the current one |
| NoticeColumns.AttachmentColumns | crawler/tender_crawler/writers/sqlalchemy_writer.py:401-479 | The row of the file's url is replaced, or one added, with the item's notice and texts; no other attachment changes |
| NoticeColumns.RawFlags | crawler/tender_crawler/writers/sqlalchemy_writer.py:120-180 | The url flag says whether the url was known; the content flag is set only if another document of the source has the content, and always if this one did not have it and another has |
| NoticeWriter.Writer.WriteNoticeItem | crawler/tender_crawler/writers/sqlalchemy_writer.py:226-275 | A notice write is suppressed if a version with its identity and content is stored; else it upserts the resolved notice, or leaves everything as it was |
| NoticeWriter.Writer.WriteVersionItem | crawler/tender_crawler/writers/sqlalchemy_writer.py:277-374 | A version write reuses or numbers a version, demotes its siblings, moves the pointer and the dates, or leaves everything as it was |
| NoticeWriter.Writer.WriteAttachmentItem | crawler/tender_crawler/writers/sqlalchemy_writer.py:376-492 | An attachment write restamps its notice and stores the file under its url, on the numbered version or else the current one |
| NoticeWriter.Writer.WriteRawDocumentItem | crawler/tender_crawler/writers/sqlalchemy_writer.py:105-216 | A raw document is stored once per url; its duplicate flags and the job counters say whether url and content were known |
| NoticeWriter.Writer.WriteErrorItem | crawler/tender_crawler/writers/sqlalchemy_writer.py:502-538 | An error row and its counter are committed together |
| NoticeCoherence.StoreStaysCoherent | crawler/tender_crawler/writers/sqlalchemy_writer.py:342-479 | After any run external ids, dedup hashes, file urls and document urls are unique per source, contents and version numbers per notice, and versions, pointers, attachments and documents stay inside their notice and source |
| NoticeCoherence.StepKeepsCoherence | crawler/tender_crawler/writers/sqlalchemy_writer.py:105-538 | Every single write keeps this |
| NoticeCoherence.ExternalIdIsResolvedFirst | crawler/tender_crawler/writers/sqlalchemy_writer.py:549-555 | An item is resolved to the one notice that has its external id, whatever the later stages would say |
| NoticeIdentity.LookupIsFirstMatch | crawler/tender_crawler/writers/sqlalchemy_writer.py:541-668 | The lookup returns the oldest notice recognised at the earliest of the five stages that recognises any; the last stage wants title and day to agree and two signals, or the only one given |
| NoticeIdentity.OutcomesExactly | crawler/tender_crawler/writers/sqlalchemy_writer.py:226-408 | Exactly when a notice, version or attachment item is suppressed, dropped or rolled back, and which notice it is written to otherwise |
| NoticeIdentity.FlagsTellTheTruth | crawler/tender_crawler/writers/sqlalchemy_writer.py:105-538 | Each logged write is what happened: a row it says it created is new, one it says it replaced was there, a suppressed write changes counters only |
| NoticeCoherence.ChoiceFacts | crawler/tender_crawler/writers/sqlalchemy_writer.py:711-775 | A version is reused only for the same notice and content; a new number and content are free in the notice |
| NoticeIdentity.ChoiceExactly | crawler/tender_crawler/writers/sqlalchemy_writer.py:711-749 | Known content is its own version; new content gets the number asked for, 1 if none, or one above the highest if that is taken; an item without content is the version of its number; anything else is dropped |
| VersionHistory.VersionsNumberTheHistory | crawler/tender_crawler/writers/sqlalchemy_writer.py:711-775 | After any run of writes as the spiders emit them, the versions of a notice are exactly the distinct contents written to it, numbered 1, 2, .. in first-seen order |
| VersionHistory.PointerIsLastWritten | crawler/tender_crawler/writers/sqlalchemy_writer.py:342-351 | current_version_id is the version of the content written last, and the only row flagged current |
| VersionHistory.RunRefinesHistory | crawler/tender_crawler/writers/sqlalchemy_writer.py:294-351 | The same for any mix of current and non-current writes: pointer and flags follow the last write of each content |
| VersionHistory.NumbersAreForever | crawler/tender_crawler/writers/sqlalchemy_writer.py:730-749 | A version number once given to a content keeps it: after any continuation of the run the notice has exactly one version of that number, with that content |
| NoticeDates.DatesSummariseTheHistory | crawler/tender_crawler/writers/sqlalchemy_writer.py:684-692 | first and latest_published_at are the minimum and maximum, published_at the last, of all dates committed for the notice; every version's date is among them |
| NoticeDates.VersionDatesAreBracketed | crawler/tender_crawler/writers/sqlalchemy_writer.py:353-361 | A notice's dates bracket the dates of all its versions |
| NoticeReplay.ReplayIsANoOp | crawler/tender_crawler/writers/sqlalchemy_writer.py:237-272 | If the notice item and the version item share a key, writing them again after the version is stored, in any order and number, leaves every table as it was; only counters move |
| NoticeReplay.SuppressedExactly | crawler/tender_crawler/writers/sqlalchemy_writer.py:778-804 | After a version item is stored, a notice item of that content is suppressed exactly if it shares a key with the stored version or with another version of the source |
| NoticeReplay.NoticeReplayExactly | crawler/tender_crawler/writers/sqlalchemy_writer.py:237-272 | The notice item alone, written again after its pair, leaves the tables as they were exactly in that case; otherwise it restamps the notice |
| NoticeReplay.PairReplayIsANoOp | crawler/tender_crawler/writers/sqlalchemy_writer.py:226-374 | Writing both items again in turn, any number of times, leaves every table as it was even if they share no key, as long as the notice item still resolves to the notice of the pair and both carry one dedup hash |
| NoticeReplay.BasePairIsRestamped | crawler/tender_crawler/spiders/base_source_spider.py:92-133 | The pair the base spider emits, written into empty tables: the repeated notice item is not suppressed and changes the notice, the repeated version item changes it back |
| NoticeReplay.NoticeReplay | crawler/tender_crawler/writers/sqlalchemy_writer.py:237-257 | A repeated notice item that shares a key with its version item is suppressed and counted as one suppressed duplicate |
| NoticeReplay.VersionReplay | crawler/tender_crawler/writers/sqlalchemy_writer.py:711-728 | The repeated version item commits the very same tables and counts one update |
| NoticeReplay.StampedKeysAreFound | crawler/tender_crawler/writers/sqlalchemy_writer.py:549-583 | The lookup returns the notice the keys were stamped on, whichever stage decides |
| JobCounters.CountersAreConserved | crawler/tender_crawler/writers/sqlalchemy_writer.py:199-211 | After any run, per job: error_count is its number of error rows, pages_fetched equals documents_saved, deduplicated_count is updated records plus suppressed duplicates plus new documents with known content |
| JobCounters.CountersAreSums | crawler/tender_crawler/writers/sqlalchemy_writer.py:199-211 | After any run each of the twelve counters of each job is the sum of what the job's committed writes did |
| JobCounters.SucceededIffNoErrorRow | app/services/source_crawl_trigger_service.py:1155-1191 | Hence the status decided for a run is succeeded exactly if the exit code is 0 and the error table has no row of the job |
| JobCounters.StoredStatus | app/services/source_crawl_trigger_service.py:862-903 | And that status is what the worker of a running job stores |
| NoticeListing.EvaluationsAgree | app/repositories/notice_repository.py:412-442 | Ids break every tie, so every evaluation of a query returns the same list |
| NoticeListing.ListedAsAsked | app/repositories/notice_repository.py:412-442 | In an export the earlier of two rows has the smaller deadline, budget, source name or date if ascending is asked for, the larger otherwise, missing ones last, newest id on ties; by date downwards, and for unknown names, recent notices come first |
| NoticeListing.FiltersAreExact | app/repositories/notice_repository.py:329-385 | A notice is listed exactly if it passes every filter that is set, each read literally |
| NoticeListing.KeyAndFlagOfRow | app/repositories/notice_repository.py:562-608 | A row's key is the first key that is not blank, trimmed, or the fallback; its flag says whether notice or version is less than a day old |
| NoticeListing.DedupKeepsLeaders | app/repositories/notice_repository.py:283-310 | Under every sort the deduplicated list is the full list with only the leader of each key kept |
| NoticeListing.LeaderIsUnbeaten | app/repositories/notice_repository.py:387-410 | Rank 1 belongs to the row that no row of its key is ranked before |
| NoticeListing.DedupKeepsFirstOccurrences | app/repositories/notice_repository.py:387-437 | Under the default sort it is the full list with first occurrences kept, each counting the rows of its key |
| NoticeListing.FirstOccurrencesExactly | app/repositories/notice_repository.py:387-442 | That holds for all tables, filters and clocks exactly under the default sort |
| NoticeListing.RivalsComeFromATable | app/repositories/notice_repository.py:329-344 | The counterexample under any other sort is read from a table of two notices |
| NoticeListing.DuplicateCountsSumToTheTotal | app/repositories/notice_repository.py:408-409 | The duplicate counts sum to the length of the full list |
| NoticeListing.PagesConcatenateToTheExport | app/repositories/notice_repository.py:147-194 | For every sort, separately queried consecutive pages join to a prefix of the export, and to all of it once they reach its end |
| NoticeListing.BaseRowsKeepTheKey | app/repositories/notice_repository.py:329-385 | Filtering keeps notice ids distinct, which the results above build on |
| ListPagination.Spider.constructor | crawler/tender_crawler/spiders/anhui_ggzy_zfcg_spider.py:72-98 | The page limit and the threshold, or its override, are as given, or one if that is less |
| ListPagination.Spider.Parse | crawler/tender_crawler/spiders/anhui_ggzy_zfcg_spider.py:102-267 | One list response: the new counters and seen sets, and the first stop condition that applies or else the page asked for |
| ListPagination.FollowedExactly | crawler/tender_crawler/spiders/anhui_ggzy_zfcg_spider.py:227-259 | A run goes on from its last page exactly if that page is new and readable, lists something not wholly before the window and has a live link, the page limit is not reached, and one of the last threshold pages requested something; it goes on to that link |
| ListPagination.StopsExactly | crawler/tender_crawler/spiders/anhui_ggzy_zfcg_spider.py:235-259 | It stops at the page limit exactly on the page of that number, for want of new items exactly after threshold pages in a row that requested nothing, and at the end of the list only if neither holds |
| ListPagination.NothingListedExactly | crawler/tender_crawler/spiders/anhui_ggzy_zfcg_spider.py:102-233 | It stops at a repeated, an unreadable, an empty page, or one with only items before the window, exactly as the pages say |
| ListPagination.Spider.RequestDetails | crawler/tender_crawler/spiders/anhui_ggzy_zfcg_spider.py:141-166 | The deduplication loop requests exactly the unseen in-window fingerprints in list order and counts the others |
| ListPagination.Spider.AllItemsOlder | crawler/tender_crawler/spiders/anhui_ggzy_zfcg_spider.py:809-823 | True exactly if there are items, all dated before the window |
| ListPagination.PaginationTerminates | crawler/tender_crawler/spiders/anhui_ggzy_zfcg_spider.py:235-259 | Against any server, with in-run deduplication, at most (F + 1) * threshold pages are processed over F fingerprints |
| ListPagination.FollowingCosts | crawler/tender_crawler/spiders/anhui_ggzy_zfcg_spider.py:171-174 | Each page gone on from lowers unseen * threshold + (threshold - consecutive) |
| ListPagination.BoundedExactly | crawler/tender_crawler/spiders/anhui_ggzy_zfcg_spider.py:235-250 | Over a fixed set of fingerprints runs are bounded exactly if deduplication or max_pages is on, or the set is empty |
| ListPagination.AtMostMaxPages | crawler/tender_crawler/spiders/anhui_ggzy_zfcg_spider.py:235-241 | A run never scrapes more than max_pages pages |
| ListPagination.NoPageTwice | crawler/tender_crawler/spiders/anhui_ggzy_zfcg_spider.py:107-115 | No page number is processed twice |
| ListPagination.NothingRequestedTwice | crawler/tender_crawler/spiders/anhui_ggzy_zfcg_spider.py:143-151 | With deduplication no detail page is requested twice |
| ListPagination.ItemsAreConserved | crawler/tender_crawler/spiders/anhui_ggzy_zfcg_spider.py:130-169 | Items seen are items unique plus skipped plus outside the window |
| ListPagination.RequestsAreTheWindow | crawler/tender_crawler/spiders/anhui_ggzy_zfcg_spider.py:801-807 | The details requested are exactly those of the in-window items of the processed pages |
| ListRequests.RequestsReadTheListing | crawler/tender_crawler/spiders/anhui_ggzy_zfcg_spider.py:141-169 | The detail requests of a run, in order, are the wanted items page by page, and with deduplication the first occurrence of each |
| ListPagination.BackfillIsComplete | crawler/tender_crawler/spiders/anhui_ggzy_zfcg_spider.py:227-259 | If dates do not increase from page to page and the run stops at the boundary or the last page, every item of the whole list dated inside the window has been requested |
| PaginationTarget.EvaluatesExactlyExpressions | crawler/tender_crawler/spiders/anhui_ggzy_zfcg_spider.py:713-743 | A printed expression evaluates to its value (a sum only if positive), and a string no expression prints evaluates to nothing |
| PaginationTarget.DecimalReadsNumerals | crawler/tender_crawler/spiders/anhui_ggzy_zfcg_spider.py:724-734 | The value of a digit string is the number it is the decimal numeral of |
| PaginationTarget.EvaluateSum | crawler/tender_crawler/spiders/anhui_ggzy_zfcg_spider.py:727-743 | The scanning loop returns the value of the expression it reads, as EvaluatesExactlyExpressions characterises it, and None where that is not positive |
| PaginationTarget.ParsePaginationTarget | crawler/tender_crawler/spiders/anhui_ggzy_zfcg_spider.py:713-743 | The regular-expression match, the digits-only shortcut and the scanning loop together return the value of the first call argument, or None |
| PaginationTarget.FirstLinkDecides | crawler/tender_crawler/spiders/anhui_ggzy_zfcg_spider.py:694-711 | A next page exists exactly if the first next-page link is live, and it is that link's destination |
| PaginationLinks.DestinationExactly | crawler/tender_crawler/spiders/anhui_ggzy_zfcg_spider.py:707-710 | A positive page called for in the click handler is the destination if it lies ahead, else the following page is; only without one does the address decide, in the same way |
| PaginationLinks.DeadExactly | crawler/tender_crawler/spiders/anhui_ggzy_zfcg_spider.py:699-705 | A link is dead exactly if its class says disabled or it has no click handler and an address that leads nowhere |
| PaginationTarget.NextPage | crawler/tender_crawler/spiders/anhui_ggzy_zfcg_spider.py:706-711 | A next page is strictly above the current page, whatever the link says |
| PaginationTarget.NextPageNo | crawler/tender_crawler/spiders/anhui_ggzy_zfcg_spider.py:694-711 | The loop over the links; the result is None or strictly above the current page |
| UrlNormalForm.NormalFormIsStable | crawler/tender_crawler/services/deduplication.py:146-151 | Normalising is idempotent |
| UrlNormalForm.NormalFormPartByPart | crawler/tender_crawler/services/deduplication.py:506-517 | Each part of the normal form: folded scheme and host, root for an empty path, no fragment, every query pair kept as often as it occurs unless its name is a listed tracking name or begins with utm_, pairs in code-point order |
| UrlNormalForm.NormalFormsExactly | crawler/tender_crawler/services/deduplication.py:146-151 | Two URLs normalise equally exactly if they agree on scheme and host up to case, on the path with the empty one read as "/", and on how often each relevant query pair occurs |
| UrlNormalForm.OrderOfPairsIsInvisible | crawler/tender_crawler/utils.py:13-18 | The order of query pairs does not matter |
| UrlNormalForm.NoiseIsInvisible | crawler/tender_crawler/services/deduplication.py:506-517 | Tracking parameters inserted anywhere, any number of them, do not matter |
| UrlNormalForm.DropIrrelevantQueryParams | crawler/tender_crawler/services/deduplication.py:506-517 | The filtering loop keeps exactly the relevant pairs, sorted, and drops the fragment |

## Left out

- CrawlJobStore.Store.FinishJob: taken as atomic together with its commit, like heartbeat, reconcile and counter updates; the original reads a row and writes it back in two statements, so races inside one call are not modelled. Claim and start are single conditional updates.
- CrawlGuarantees.SourceMutex: about job rows; two spider processes of one source may overlap while an expired worker is still alive.
- CrawlGuarantees.CreationLooksAtCommittedRows: the reconcile inside a creation, where it does get committed with the insert, is modelled as a separate reconcile step.
- CrawlJobStore.Store.CreateJob: the automatic creation of an unknown source site is not modelled.
- JobDispatch.Dispatch: launching a process is an outcome chosen from outside; log files, argument validation beyond "the command can be built", and the delay between attempts are left out.
- JobDispatch.DispatchPendingJobs: stated for a sweep that nothing interrupts; interrupted sweeps are events of `CrawlProtocol` and covered by `DispatchWaiting.BoundedWaiting`.
- CrawlJobStore.Store.RecordJobStats: negative increments, which the original refuses, cannot be expressed.
- RunOutcome.FinalStatusExactly: failure texts omit the exit code, and error stages are the three the writer stores.
- Job payloads: job_params_json and runtime_stats_json, triggered_by, and the texts of messages are not modelled beyond being stored.
- NoticeWriter.Writer.WriteVersionItem: structured_data and change_summary of versions, descriptive columns of raw documents and attachments, and the default for a missing fetch time are not modelled.
- NoticeCoherence.StoreStaysCoherent: (source, dedup_hash) is unique only because violating writes are rolled back; the lookup alone does not keep it.
- NoticeTables: item normalisation before a write (keys, hashes, dates, title and party folding) is uninterpreted; no collision freedom of hashes or joined seeds is claimed. is_duplicate_content is what the writer computes at write time and is not updated later.
- JobCounters.CountersAreSums: records_inserted and records_updated count the row a write is about; a notice created or restamped inside a version or attachment write is not counted, as in the original.
- NoticeListing: the keyword match and the collation of source names are parameters; all queries of one theorem see one snapshot and one clock. Related notices, details and version pages are not modelled.
- ListPagination: HTML extraction, the date parser, log lines, the publication range in the metadata and the framework's own duplicate filter are left out; a server that stops answering ends the run.
- PaginationTarget.ParsePaginationTarget: digits, white space and case folding are those of ASCII.
- UrlNormalForm.NormalFormIsStable: stated on split URLs and decoded pairs; splitting and joining, and encoding and decoding queries, are taken as inverse to each other.
- The second spider, health thresholds, statistics, schedules, HTTP endpoints, templates, settings and exports would add only easy or library-bound members.
