/** What the columns of the stored rows are, in terms of the items written. */
module NoticeColumns {
  import opened Options
  import opened CrawlJobs
  import opened NoticeTables
  import opened NoticeCoherence
  import opened NoticeDates
  import opened NoticeReplay

  // ---------------------------------------------------------------- notices

  /** The last value present in a column of the items written to a notice. */
  function LastPresent<T>(log: seq<Write>, n: NoticeId, column: Item -> Option<T>): Option<T> {
    if log == [] then None
    else
      var w := log[|log| - 1];
      if Stamps(w) && w.notice == n && column(w.item).Some? then column(w.item) else LastPresent(log[..|log| - 1], n, column)
  }

  /** The type of the last item written to a notice. */
  function LastType(log: seq<Write>, n: NoticeId): Option<NoticeType> {
    if log == [] then None
    else
      var w := log[|log| - 1];
      if Stamps(w) && w.notice == n then Some(w.item.noticeType) else LastType(log[..|log| - 1], n)
  }

  function TitleOf(): Item -> Option<string> { (i: Item) => i.title }

  function ProjectCodeOf(): Item -> Option<string> { (i: Item) => i.details.projectCode }

  function IssuerOf(): Item -> Option<string> { (i: Item) => i.details.issuer }

  function RegionOf(): Item -> Option<string> { (i: Item) => i.details.region }

  function DeadlineOf(): Item -> Option<Time> { (i: Item) => i.details.deadlineAt }

  function BudgetOf(): Item -> Option<int> { (i: Item) => i.details.budgetAmount }

  function CurrencyOf(): Item -> Option<string> { (i: Item) => i.details.budgetCurrency }

  function SummaryOf(): Item -> Option<string> { (i: Item) => i.details.summary }

  function ExternalIdOf(): Item -> Option<Key> { (i: Item) => i.externalId }

  function DuplicateKeyOf(): Item -> Option<Key> { (i: Item) => i.sourceDuplicateKey }

  /** A missing dedup key is replaced by the source duplicate key. */
  function DedupKeyOf(): Item -> Option<Key> { (i: Item) => if i.dedupKey.Some? then i.dedupKey else i.sourceDuplicateKey }

  function DedupHashOf(): Item -> Option<Key> { (i: Item) => i.dedupHash }

  /** Each column of the notice is the last value present in the items written to it; the type is that
      of the last item, and a currency never given is CNY. */
  ghost predicate Described(row: Notice, log: seq<Write>, n: NoticeId) {
    && LastPresent(log, n, TitleOf()) == Some(row.title)
    && LastType(log, n) == Some(row.noticeType)
    && row.details.projectCode == LastPresent(log, n, ProjectCodeOf())
    && row.details.issuer == LastPresent(log, n, IssuerOf())
    && row.details.region == LastPresent(log, n, RegionOf())
    && row.details.deadlineAt == LastPresent(log, n, DeadlineOf())
    && row.details.budgetAmount == LastPresent(log, n, BudgetOf())
    && row.details.summary == LastPresent(log, n, SummaryOf())
    && row.details.budgetCurrency ==
       (if LastPresent(log, n, CurrencyOf()).Some? then LastPresent(log, n, CurrencyOf()) else Some("CNY"))
  }

  /** Likewise the identity keys. */
  ghost predicate Keyed(row: Notice, log: seq<Write>, n: NoticeId) {
    && row.externalId == LastPresent(log, n, ExternalIdOf())
    && row.sourceDuplicateKey == LastPresent(log, n, DuplicateKeyOf())
    && row.dedupKey == LastPresent(log, n, DedupKeyOf())
    && row.dedupHash == LastPresent(log, n, DedupHashOf())
  }

  predicate Untouched(log: seq<Write>, n: NoticeId) {
    forall i | 0 <= i < |log| :: !(Stamps(log[i]) && log[i].notice == n)
  }

  ghost predicate Reflects(s: Store) {
    && (forall n | n in s.db.notices :: Described(s.db.notices[n], s.log, n) && Keyed(s.db.notices[n], s.log, n))
    && (forall n: NoticeId | n !in s.db.notices :: Untouched(s.log, n))
  }

  lemma PresentAppended<T>(log: seq<Write>, w: Write, n: NoticeId, column: Item -> Option<T>)
    ensures LastPresent(log + [w], n, column) ==
            if Stamps(w) && w.notice == n && column(w.item).Some? then column(w.item) else LastPresent(log, n, column)
  {
    assert (log + [w])[..|log|] == log;
  }

  lemma {:induction false} NothingPresent<T>(log: seq<Write>, n: NoticeId, column: Item -> Option<T>)
    requires Untouched(log, n)
    ensures LastPresent(log, n, column) == None
  {
    if log != [] { NothingPresent(log[..|log| - 1], n, column); }
  }

  lemma TypeAppended(log: seq<Write>, w: Write, n: NoticeId)
    ensures LastType(log + [w], n) == if Stamps(w) && w.notice == n then Some(w.item.noticeType) else LastType(log, n)
  {
    assert (log + [w])[..|log|] == log;
  }

  lemma DescribedAppended(row: Notice, row': Notice, log: seq<Write>, w: Write, n: NoticeId)
    requires Stamps(w) && w.notice == n && Described(row, log, n) && SameButPointer(row', Applied(row, w.item))
    ensures Described(row', log + [w], n)
  {
    hide LastPresent, LastType;
    PresentAppended(log, w, n, TitleOf());
    PresentAppended(log, w, n, ProjectCodeOf());
    PresentAppended(log, w, n, IssuerOf());
    PresentAppended(log, w, n, RegionOf());
    PresentAppended(log, w, n, DeadlineOf());
    PresentAppended(log, w, n, BudgetOf());
    PresentAppended(log, w, n, CurrencyOf());
    PresentAppended(log, w, n, SummaryOf());
    TypeAppended(log, w, n);
  }

  lemma DescribedAfresh(row: Notice, log: seq<Write>, w: Write, n: NoticeId)
    requires Stamps(w) && w.notice == n && Untouched(log, n) && w.item.title.Some?
    requires SameButPointer(row, Applied(NewNotice(w.item), w.item))
    ensures Described(row, log + [w], n)
  {
    hide LastPresent, LastType, Untouched;
    PresentAppended(log, w, n, TitleOf());
    PresentAppended(log, w, n, ProjectCodeOf());
    PresentAppended(log, w, n, IssuerOf());
    PresentAppended(log, w, n, RegionOf());
    PresentAppended(log, w, n, DeadlineOf());
    PresentAppended(log, w, n, BudgetOf());
    PresentAppended(log, w, n, CurrencyOf());
    PresentAppended(log, w, n, SummaryOf());
    TypeAppended(log, w, n);
    NothingPresent(log, n, ProjectCodeOf());
    NothingPresent(log, n, IssuerOf());
    NothingPresent(log, n, RegionOf());
    NothingPresent(log, n, DeadlineOf());
    NothingPresent(log, n, BudgetOf());
    NothingPresent(log, n, CurrencyOf());
    NothingPresent(log, n, SummaryOf());
  }

  lemma KeyedAppended(row: Notice, row': Notice, log: seq<Write>, w: Write, n: NoticeId)
    requires Stamps(w) && w.notice == n && Keyed(row, log, n) && SameButPointer(row', Applied(row, w.item))
    ensures Keyed(row', log + [w], n)
  {
    hide LastPresent;
    PresentAppended(log, w, n, ExternalIdOf());
    PresentAppended(log, w, n, DuplicateKeyOf());
    PresentAppended(log, w, n, DedupKeyOf());
    PresentAppended(log, w, n, DedupHashOf());
  }

  lemma KeyedAfresh(row: Notice, log: seq<Write>, w: Write, n: NoticeId)
    requires Stamps(w) && w.notice == n && Untouched(log, n) && w.item.title.Some?
    requires SameButPointer(row, Applied(NewNotice(w.item), w.item))
    ensures Keyed(row, log + [w], n)
  {
    hide LastPresent, Untouched;
    PresentAppended(log, w, n, ExternalIdOf());
    PresentAppended(log, w, n, DuplicateKeyOf());
    PresentAppended(log, w, n, DedupKeyOf());
    PresentAppended(log, w, n, DedupHashOf());
    NothingPresent(log, n, ExternalIdOf());
    NothingPresent(log, n, DuplicateKeyOf());
    NothingPresent(log, n, DedupKeyOf());
    NothingPresent(log, n, DedupHashOf());
  }

  lemma ElsewhereNothingChanges(row: Notice, log: seq<Write>, w: Write, n: NoticeId)
    requires !(Stamps(w) && w.notice == n) && Described(row, log, n) && Keyed(row, log, n)
    ensures Described(row, log + [w], n) && Keyed(row, log + [w], n)
  {
    assert (log + [w])[..|log|] == log;
  }

  lemma {:induction false} StepKeepsColumns(s: Store, norm: Normaliser, e: Event)
    requires Reflects(s)
    ensures Reflects(Next(s, norm, e))
  {
    hide Next, Described, Keyed, Applied, NewNotice;
    var s' := Next(s, norm, e);
    EveryStepStampsOrNot(s, norm, e);
    if s' != s {
      var w :| StampStep(s, s', w) || OtherStep(s, s', w);
      forall n | n in s'.db.notices
        ensures Described(s'.db.notices[n], s'.log, n) && Keyed(s'.db.notices[n], s'.log, n)
      {
        if Stamps(w) && w.notice == n {
          if n in s.db.notices {
            DescribedAppended(s.db.notices[n], s'.db.notices[n], s.log, w, n);
            KeyedAppended(s.db.notices[n], s'.db.notices[n], s.log, w, n);
          } else {
            DescribedAfresh(s'.db.notices[n], s.log, w, n);
            KeyedAfresh(s'.db.notices[n], s.log, w, n);
          }
        } else {
          ElsewhereNothingChanges(s.db.notices[n], s.log, w, n);
        }
      }
    }
  }

  /** After any run, every column and key of every notice is the last value present in the items that
      were written to it; an absent value never erases one. */
  lemma {:induction false} ColumnsAreLastPresent(jobs: set<JobId>, norm: Normaliser, events: seq<Event>, n: NoticeId)
    requires n in Run(Empty(jobs), norm, events).db.notices
    ensures var s := Run(Empty(jobs), norm, events);
            Described(s.db.notices[n], s.log, n) && Keyed(s.db.notices[n], s.log, n)
  {
    RunReflects(jobs, norm, events);
    hide Run, Described, Keyed;
  }

  lemma {:induction false} RunReflects(jobs: set<JobId>, norm: Normaliser, events: seq<Event>)
    ensures Reflects(Run(Empty(jobs), norm, events))
  {
    hide Next;
    if events == [] {
      assert Run(Empty(jobs), norm, events) == Empty(jobs);
    } else {
      var init := events[..|events| - 1];
      RunReflects(jobs, norm, init);
      hide Reflects;
      StepKeepsColumns(Run(Empty(jobs), norm, init), norm, events[|events| - 1]);
    }
  }

  // ---------------------------------------------------------------- versions

  /** What a version write puts into its row: the item's own values, absent ones included, save that a
      missing title is the notice's and a missing currency CNY; keys are kept where the item has none. */
  lemma {:induction false} VersionColumns(db: Db, norm: Normaliser, item: Item, ids: Ids)
    requires FreshIds(db, ids) && WriteVersion(db, norm, item, ids).Committed?
    ensures var db' := WriteVersion(db, norm, item, ids).db;
            var id := WrittenVersion(db, norm, item, ids);
            && id in db'.versions && db'.versions[id].notice in db'.notices
            && var v := db'.versions[id];
            && v.title == (if item.title.Some? then item.title.value else db'.notices[v.notice].title)
            && v.noticeType == item.noticeType && v.publishedAt == item.publishedAt
            && v.details.issuer == item.details.issuer && v.details.region == item.details.region
            && v.details.deadlineAt == item.details.deadlineAt && v.details.budgetAmount == item.details.budgetAmount
            && v.details.budgetCurrency == (if item.details.budgetCurrency.Some? then item.details.budgetCurrency else Some("CNY"))
            && (item.dedupKey.Some? ==> v.dedupKey == item.dedupKey)
            && (item.dedupKey.None? && item.sourceDuplicateKey.Some? ==> v.dedupKey == item.sourceDuplicateKey)
            && (item.sourceDuplicateKey.Some? ==> v.sourceDuplicateKey == item.sourceDuplicateKey)
            && (v.rawDocument.Some? <==>
                  item.rawUrlHash.Some? && exists r :: HasUrl(db.raws, r, item.source, item.rawUrlHash.value))
            && (v.rawDocument.Some? ==> HasUrl(db.raws, v.rawDocument.value, item.source, item.rawUrlHash.value))
            && forall k | k in db.versions && k != id :: k in db'.versions && db'.versions[k] == db.versions[k].(isCurrent := db'.versions[k].isCurrent)
  {
    hide Resolve, HashTaken, WriteVersion, ChooseVersion, WithVersion, Applied, NewNotice, FindRaw;
    var id, row, notice := VersionEffect(db, norm, item, ids);
    WithVersionFacts(db.versions, id, row);
    DocumentFound(db.raws, item.source, item.rawUrlHash);
  }

  lemma DocumentFound(t: map<RawId, RawDocument>, source: SourceId, urlHash: Option<Key>)
    ensures var found := FindRaw(t, source, urlHash);
            && (found.Some? <==> urlHash.Some? && exists r :: HasUrl(t, r, source, urlHash.value))
            && (found.Some? ==> HasUrl(t, found.value, source, urlHash.value))
  {
    hide FindRaw;
    var found := FindRaw(t, source, urlHash);
    if found.Some? { assert HasUrl(t, found.value, source, urlHash.value); }
  }

  // ---------------------------------------------------------------- attachments

  /** The version an attachment hangs on: the one with the number it names, if the notice has it, else
      the one the notice points at. */
  lemma {:induction false} AttachedExactly(t: map<VersionId, Version>, n: NoticeId, row: Notice, no: Option<int>, v: VersionId)
    requires VersionKeys(t)
    ensures no.Some? && HasNo(t, v, n, no.value) ==> AttachedVersion(t, n, row, no) == Some(v)
    ensures no.None? || (forall w :: !HasNo(t, w, n, no.value)) ==> AttachedVersion(t, n, row, no) == row.currentVersionId
  {
    hide ByVersionNo;
    if no.Some? {
      var found := ByVersionNo(t, n, no.value);
      assert found.Some? ==> HasNo(t, found.value, n, no.value);
    }
  }

  /** A complete attachment item is stored under its url: the row of that url is replaced, or a new one
      added, and no other attachment changes. */
  lemma {:induction false} AttachmentColumns(db: Db, norm: Normaliser, item: Item, file: FileInfo, ids: Ids)
    requires FreshIds(db, ids) && FileKeys(db) && WriteAttachment(db, norm, item, file, ids).Committed?
    requires file.urlHash.Some? && file.fileUrl.Some? && file.fileName.Some?
    ensures var db' := WriteAttachment(db, norm, item, file, ids).db;
            var r := Resolve(db.notices, norm, item, ids.notice);
            exists a: AttachmentId :: HasFile(db'.attachments, a, item.source, file.urlHash.value)
              && ((exists k: AttachmentId :: HasFile(db.attachments, k, item.source, file.urlHash.value)) ==>
                    HasFile(db.attachments, a, item.source, file.urlHash.value))
              && ((forall k: AttachmentId :: !HasFile(db.attachments, k, item.source, file.urlHash.value)) ==> a !in db.attachments)
              && r.Resolved? && db'.attachments[a].notice == r.id
              && db'.attachments[a].version == AttachedVersion(db.versions, r.id, r.row, file.versionNo)
              && db'.attachments[a].fileUrl == file.fileUrl.value && db'.attachments[a].fileName == file.fileName.value
              && db'.attachments == db.attachments[a := db'.attachments[a]]
  {
    hide Resolve, HashTaken, AttachedVersion, FindAttachment, FindRaw, Counted, Upserted;
    var found := FindAttachment(db.attachments, item.source, file.urlHash.value);
    var a := found.GetOr(ids.attachment);
    var db' := WriteAttachment(db, norm, item, file, ids).db;
    assert found.Some? ==> HasFile(db.attachments, found.value, item.source, file.urlHash.value);
    assert HasFile(db'.attachments, a, item.source, file.urlHash.value);
  }

  // ---------------------------------------------------------------- raw documents

  predicate HoldsContent(t: map<RawId, RawDocument>, r: RawId, source: SourceId, hash: Key) {
    r in t && t[r].source == source && t[r].contentHash == Some(hash)
  }

  /** A raw document is stored once per url.  Its url flag says whether the url was known.  Its content
      flag is only set if another document of the source has the content, and under a new url, or one
      whose stored content differs, whenever one has. */
  lemma {:induction false} RawFlags(db: Db, item: RawItem, ids: Ids)
    requires FreshIds(db, ids) && FileKeys(db) && WriteRaw(db, item, ids).Committed?
    ensures var db' := WriteRaw(db, item, ids).db;
            item.urlHash.Some? &&
            exists id :: HasUrl(db'.raws, id, item.source, item.urlHash.value)
              && var doc := db'.raws[id];
              && db'.raws == db.raws[id := doc]
              && doc.contentHash == item.contentHash && doc.job == item.job
              && (doc.isDuplicateUrl <==> id in db.raws)
              && (id in db.raws ==> HasUrl(db.raws, id, item.source, item.urlHash.value))
              && (id !in db.raws ==> forall r :: !HasUrl(db.raws, r, item.source, item.urlHash.value))
              && (doc.isDuplicateContent ==>
                    item.contentHash.Some? && exists r :: r != id && HoldsContent(db.raws, r, item.source, item.contentHash.value))
              && ((item.contentHash.Some? && !HoldsContent(db.raws, id, item.source, item.contentHash.value)
                   && exists r :: HoldsContent(db.raws, r, item.source, item.contentHash.value)) ==>
                    doc.isDuplicateContent)
  {
    hide Counted, FindRaw;
    DocumentFound(db.raws, item.source, item.urlHash);
    ContentFound(db.raws, item);
    hide DocumentWithContent;
    var id := FindRaw(db.raws, item.source, item.urlHash).GetOr(ids.raw);
    assert HasUrl(WriteRaw(db, item, ids).db.raws, id, item.source, item.urlHash.value);
  }

  lemma ContentFound(t: map<RawId, RawDocument>, item: RawItem)
    ensures var found := DocumentWithContent(t, item);
            && (found.Some? <==> item.contentHash.Some? && exists r :: HoldsContent(t, r, item.source, item.contentHash.value))
            && (found.Some? ==> HoldsContent(t, found.value, item.source, item.contentHash.value))
  {
    hide DocumentWithContent;
    var found := DocumentWithContent(t, item);
    if found.Some? { assert HoldsContent(t, found.value, item.source, item.contentHash.value); }
  }
}
