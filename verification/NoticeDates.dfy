/** The publication dates of a notice summarise every date committed for it. */
module NoticeDates {
  import opened Options
  import opened CrawlJobs
  import opened NoticeTables
  import opened NoticeCoherence

  /** The writes that stamp a notice with their item. */
  predicate Stamps(w: Write) { w.NoticeWrite? || w.VersionWrite? || w.AttachmentWrite? }

  predicate DateOf(w: Write, n: NoticeId) {
    Stamps(w) && w.notice == n && w.item.publishedAt.Some?
  }

  /** The dates committed for a notice, in the order of writing. */
  function DatesOf(log: seq<Write>, n: NoticeId): seq<Time> {
    if log == [] then []
    else
      var w := log[|log| - 1];
      DatesOf(log[..|log| - 1], n) + if DateOf(w, n) then [w.item.publishedAt.value] else []
  }

  lemma DateAppended(log: seq<Write>, w: Write, n: NoticeId)
    ensures DatesOf(log + [w], n) == DatesOf(log, n) + if DateOf(w, n) then [w.item.publishedAt.value] else []
  {
    assert (log + [w])[..|log|] == log;
  }

  /** `first` is the minimum and `latest` the maximum of the dates; with no date both are unset. */
  ghost predicate Spans(dates: seq<Time>, first: Option<Time>, latest: Option<Time>) {
    && (first.Some? <==> dates != []) && (latest.Some? <==> dates != [])
    && (dates != [] ==> first.value in dates && latest.value in dates)
    && (dates != [] ==> forall d | d in dates :: first.value <= d <= latest.value)
  }

  ghost predicate Summarises(n: Notice, dates: seq<Time>) {
    && Spans(dates, n.firstPublishedAt, n.latestPublishedAt)
    && n.publishedAt == if dates == [] then None else Some(dates[|dates| - 1])
  }

  ghost predicate Dated(s: Store) {
    && (forall n | n in s.db.notices :: Summarises(s.db.notices[n], DatesOf(s.log, n)))
    && (forall n: NoticeId | n !in s.db.notices :: DatesOf(s.log, n) == [])
    && (forall v | v in s.db.versions && s.db.versions[v].publishedAt.Some? ::
          s.db.versions[v].publishedAt.value in DatesOf(s.log, s.db.versions[v].notice))
  }

  lemma StampedDates(n: Notice, dates: seq<Time>, item: Item)
    requires Summarises(n, dates)
    ensures Summarises(Applied(n, item), dates + if item.publishedAt.Some? then [item.publishedAt.value] else [])
  {
    if item.publishedAt.None? { assert dates + [] == dates; }
  }

  lemma NewDates(item: Item)
    requires item.title.Some?
    ensures Summarises(Applied(NewNotice(item), item), if item.publishedAt.Some? then [item.publishedAt.value] else [])
  {
  }

  predicate SameButPointer(a: Notice, b: Notice) { a == b.(currentVersionId := a.currentVersionId) }

  /** What a stamping write leaves: one notice stamped with the item, and version rows whose date is
      either as stored or the item's. */
  ghost predicate StampStep(s: Store, s': Store, w: Write) {
    && s'.log == s.log + [w] && Stamps(w)
    && var n, item := w.notice, w.item;
    && n in s'.db.notices && s'.db.notices.Keys == s.db.notices.Keys + {n}
    && (forall m | m in s.db.notices && m != n :: s'.db.notices[m] == s.db.notices[m])
    && (n !in s.db.notices ==> item.title.Some?)
    && SameButPointer(s'.db.notices[n], if n in s.db.notices then Applied(s.db.notices[n], item) else Applied(NewNotice(item), item))
    && (forall v | v in s'.db.versions ::
          || (v in s.db.versions && s'.db.versions[v].notice == s.db.versions[v].notice
              && s'.db.versions[v].publishedAt == s.db.versions[v].publishedAt)
          || (s'.db.versions[v].notice == n && s'.db.versions[v].publishedAt == item.publishedAt))
  }

  /** Any other write leaves notices and versions alone. */
  ghost predicate OtherStep(s: Store, s': Store, w: Write) {
    s'.log == s.log + [w] && !Stamps(w) && s'.db.notices == s.db.notices && s'.db.versions == s.db.versions
  }

  lemma {:induction false} NoticeWriteIsAStep(s: Store, norm: Normaliser, item: Item, ids: Ids)
    requires FreshIds(s.db, ids) && WriteNotice(s.db, norm, item, ids).Committed?
    ensures var effect := WriteNotice(s.db, norm, item, ids);
            StampStep(s, After(s, effect), effect.write) || OtherStep(s, After(s, effect), effect.write)
  {
    hide Resolve, HashTaken, AlreadyStored, Applied, NewNotice, Counted;
    ResolvedRow(s.db.notices, norm, item, ids.notice);
  }

  lemma {:induction false} VersionWriteIsAStep(s: Store, norm: Normaliser, item: Item, ids: Ids)
    requires FreshIds(s.db, ids) && WriteVersion(s.db, norm, item, ids).Committed?
    ensures var effect := WriteVersion(s.db, norm, item, ids); StampStep(s, After(s, effect), effect.write)
  {
    hide Resolve, HashTaken, WriteVersion, ChooseVersion, WithVersion, FindRaw, Applied, NewNotice;
    ResolvedRow(s.db.notices, norm, item, ids.notice);
    var id, row, notice := VersionEffect(s.db, norm, item, ids);
    WithVersionFacts(s.db.versions, id, row);
  }

  lemma {:induction false} AttachmentWriteIsAStep(s: Store, norm: Normaliser, item: Item, file: FileInfo, ids: Ids)
    requires FreshIds(s.db, ids) && WriteAttachment(s.db, norm, item, file, ids).Committed?
    ensures var effect := WriteAttachment(s.db, norm, item, file, ids); StampStep(s, After(s, effect), effect.write)
  {
    hide WriteAttachment, Resolve, HashTaken, Applied, NewNotice;
    ResolvedRow(s.db.notices, norm, item, ids.notice);
    AttachmentWriteStamps(s.db, norm, item, file, ids);
  }

  /** A step of a run commits nothing, stamps a notice, or leaves notices and versions alone. */
  lemma {:induction false} EveryStepStampsOrNot(s: Store, norm: Normaliser, e: Event)
    ensures var s' := Next(s, norm, e);
            s' == s || exists w :: StampStep(s, s', w) || OtherStep(s, s', w)
  {
    hide WriteNotice, WriteVersion, WriteAttachment, StampStep;
    var effect := EffectOf(s.db, norm, e);
    if FreshEvent(s.db, e) && effect.Committed? {
      match e
      case NoticeItem(item, ids) => NoticeWriteIsAStep(s, norm, item, ids);
      case VersionItem(item, ids) => VersionWriteIsAStep(s, norm, item, ids);
      case AttachmentItem(item, file, ids) => AttachmentWriteIsAStep(s, norm, item, file, ids);
      case RawDocumentItem(raw, ids) => assert OtherStep(s, After(s, effect), effect.write);
      case ErrorItem(job) => assert OtherStep(s, After(s, effect), effect.write);
    }
  }

  lemma {:induction false} StampKeepsDates(s: Store, s': Store, w: Write)
    requires Dated(s) && StampStep(s, s', w)
    ensures Dated(s')
  {
    hide Applied, NewNotice, Spans;
    var n, item := w.notice, w.item;
    forall m: NoticeId ensures DatesOf(s'.log, m) == DatesOf(s.log, m) + if m == n && item.publishedAt.Some? then [item.publishedAt.value] else [] {
      DateAppended(s.log, w, m);
    }
    hide DatesOf;
    forall m | m in s'.db.notices ensures Summarises(s'.db.notices[m], DatesOf(s'.log, m)) {
      if m in s.db.notices && m == n {
        StampedDates(s.db.notices[m], DatesOf(s.log, m), item);
      } else if m == n {
        NewDates(item);
        assert DatesOf(s'.log, m) == if item.publishedAt.Some? then [item.publishedAt.value] else [];
      } else {
        assert DatesOf(s'.log, m) == DatesOf(s.log, m);
      }
    }
  }

  lemma OtherWriteKeepsDates(s: Store, s': Store, w: Write)
    requires Dated(s) && OtherStep(s, s', w)
    ensures Dated(s')
  {
    forall m: NoticeId ensures DatesOf(s'.log, m) == DatesOf(s.log, m) {
      DateAppended(s.log, w, m);
    }
    hide DatesOf;
  }

  lemma {:induction false} StepKeepsDates(s: Store, norm: Normaliser, e: Event)
    requires Dated(s)
    ensures Dated(Next(s, norm, e))
  {
    hide Dated, Next, StampStep, OtherStep;
    var s' := Next(s, norm, e);
    EveryStepStampsOrNot(s, norm, e);
    if s' != s {
      var w :| StampStep(s, s', w) || OtherStep(s, s', w);
      if StampStep(s, s', w) { StampKeepsDates(s, s', w); } else { OtherWriteKeepsDates(s, s', w); }
    }
  }

  /** After any run, first_published_at and latest_published_at are the minimum and maximum, and
      published_at the last, of all dates committed for the notice; every version's date is among them. */
  lemma {:induction false} DatesSummariseTheHistory(jobs: set<JobId>, norm: Normaliser, events: seq<Event>)
    ensures Dated(Run(Empty(jobs), norm, events))
  {
    hide Next;
    if events == [] {
      assert Run(Empty(jobs), norm, events) == Empty(jobs);
    } else {
      var init := events[..|events| - 1];
      DatesSummariseTheHistory(jobs, norm, init);
      hide Dated;
      StepKeepsDates(Run(Empty(jobs), norm, init), norm, events[|events| - 1]);
    }
  }

  /** Hence a notice brackets the dates of all its versions. */
  lemma {:induction false} VersionDatesAreBracketed(jobs: set<JobId>, norm: Normaliser, events: seq<Event>, v: VersionId)
    requires v in Run(Empty(jobs), norm, events).db.versions
    ensures var db := Run(Empty(jobs), norm, events).db;
            var version := db.versions[v];
            && version.notice in db.notices
            && (version.publishedAt.Some? ==>
                  && db.notices[version.notice].firstPublishedAt.Some? && db.notices[version.notice].latestPublishedAt.Some?
                  && db.notices[version.notice].firstPublishedAt.value <= version.publishedAt.value
                     <= db.notices[version.notice].latestPublishedAt.value)
  {
    DatesSummariseTheHistory(jobs, norm, events);
    StoreStaysCoherent(jobs, norm, events);
    hide Run, NoticeKeys, VersionKeys, FileKeys, DatesOf;
    var s := Run(Empty(jobs), norm, events);
    assert VersionOk(s.db, v);
  }
}
