/**
 The writers over mutable tables.  A write collects its changes in the session and assigns the
 tables only when it commits, so a write that raises or returns early leaves them alone.
 */
module NoticeWriter {
  import opened Options
  import opened CrawlJobs
  import opened NoticeTables

  class Writer {
    const norm: Normaliser
    var notices: map<NoticeId, Notice>
    var versions: map<VersionId, Version>
    var attachments: map<AttachmentId, Attachment>
    var raws: map<RawId, RawDocument>
    var errors: seq<Option<JobId>>
    var jobs: map<JobId, Counters>
    ghost var log: seq<Write>

    function Tables(): Db
      reads this
    {
      Db(notices, versions, attachments, raws, errors, jobs)
    }

    ghost function State(): Store
      reads this
    {
      Store(Tables(), log)
    }

    constructor (norm: Normaliser, jobs: set<JobId>)
      ensures State() == Empty(jobs) && this.norm == norm
    {
      this.norm := norm;
      notices, versions, attachments, raws, errors := map[], map[], map[], map[], [];
      this.jobs := map j | j in jobs :: NO_COUNTS;
      log := [];
    }

    /** The lookup stages, each tried only when the ones before found nothing. */
    method ResolveNotice(item: Item, nextId: NoticeId) returns (id: NoticeId, notice: Option<Notice>, created: bool)
      ensures notice.None? <==> Resolve(notices, norm, item, nextId).NoNotice?
      ensures notice.Some? ==>
                Resolve(notices, norm, item, nextId) == Resolved(id, Applied(notice.value, item), created)
    {
      var found: Option<NoticeId> := None;
      created := false;
      id := nextId;
      if item.externalId.Some? {
        found := ByExternalId(notices, item.source, item.externalId.value);
      }
      if found.None? && item.sourceDuplicateKey.Some? {
        found := BySourceDuplicateKey(notices, item.source, item.sourceDuplicateKey.value);
      }
      if found.None? && item.dedupKey.Some? {
        found := ByDedupKey(notices, item.source, item.dedupKey.value);
      }
      if found.None? && item.dedupHash.Some? {
        found := ByDedupHash(notices, item.source, item.dedupHash.value);
      }
      if found.None? {
        found := BySimilarity(notices, norm, item);
      }
      if found.Some? {
        id := found.value;
        notice := Some(notices[id]);
      } else if item.title.None? {
        notice := None;
      } else {
        notice := Some(NewNotice(item));
        created := true;
      }
    }

    method ApplyNoticeFields(stored: Notice, item: Item) returns (notice: Notice)
      ensures notice == Applied(stored, item)
    {
      notice := stored;
      if item.title.Some? {
        notice := notice.(title := item.title.value);
      }
      notice := notice.(noticeType := item.noticeType);
      notice := notice.(externalId := item.externalId.Or(notice.externalId));
      notice := notice.(dedupHash := item.dedupHash.Or(notice.dedupHash));
      notice := notice.(dedupKey := item.dedupKey.Or(item.sourceDuplicateKey).Or(notice.dedupKey));
      notice := notice.(sourceDuplicateKey := item.sourceDuplicateKey.Or(notice.sourceDuplicateKey));
      notice := notice.(details := item.details.Over(notice.details));
      if item.publishedAt.Some? {
        var published := item.publishedAt.value;
        notice := notice.(publishedAt := Some(published));
        if notice.firstPublishedAt.None? || published < notice.firstPublishedAt.value {
          notice := notice.(firstPublishedAt := Some(published));
        }
        if notice.latestPublishedAt.None? || published > notice.latestPublishedAt.value {
          notice := notice.(latestPublishedAt := Some(published));
        }
      }
    }

    method WriteNoticeItem(item: Item, ids: Ids)
      modifies this
      ensures State() == After(old(State()), WriteNotice(old(Tables()), norm, item, ids))
    {
      if AlreadyStored(Tables(), item) {
        jobs := Counted(jobs, item.job, NO_COUNTS.(deduplicatedCount := 1, duplicatesSuppressed := 1));
        log := log + [SuppressedWrite(item.job)];
        return;
      }
      var id, stored, created := ResolveNotice(item, ids.notice);
      if stored.None? {
        return;
      }
      var notice := ApplyNoticeFields(stored.value, item);
      if HashTaken(notices, id, notice) {
        return;
      }
      notices := notices[id := notice];
      jobs := Counted(jobs, item.job, Upserted(created).(noticesUpserted := 1));
      log := log + [NoticeWrite(id, item, item.job, created)];
    }

    method WriteVersionItem(item: Item, ids: Ids)
      modifies this
      ensures State() == After(old(State()), WriteVersion(old(Tables()), norm, item, ids))
    {
      hide Resolve, HashTaken, FindRaw, WithVersion, Counted, MaxVersionNo;
      var id, stored, _ := ResolveNotice(item, ids.notice);
      if stored.None? {
        return;
      }
      var notice := ApplyNoticeFields(stored.value, item);
      var choice := ChooseVersion(versions, id, item);
      if choice.NoVersion? {
        return;
      }
      if HashTaken(notices, id, notice) {
        return;
      }
      var raw := FindRaw(raws, item.source, item.rawUrlHash);
      var versionId := ids.version;
      var created := choice.NewVersion?;
      var version: Version;
      if choice.OldVersion? {
        versionId := choice.id;
        version := versions[versionId];
      } else {
        version := Version(id, choice.no, item.isCurrent, item.contentHash.value, None, None, notice.title, item.noticeType,
                           item.details, item.publishedAt, None);
      }
      version := version.(isCurrent := item.isCurrent, contentHash := item.contentHash.GetOr(version.contentHash));
      version := version.(dedupKey := item.dedupKey.Or(item.sourceDuplicateKey).Or(version.dedupKey));
      version := version.(sourceDuplicateKey := item.sourceDuplicateKey.Or(version.sourceDuplicateKey));
      version := version.(title := item.title.GetOr(notice.title), noticeType := item.noticeType);
      version := version.(details := item.details.WithCurrency(), publishedAt := item.publishedAt, rawDocument := raw);
      if version.isCurrent {
        notice := notice.(currentVersionId := Some(versionId));
      }
      if version.publishedAt.Some? {
        var published := version.publishedAt.value;
        if notice.firstPublishedAt.None? || published < notice.firstPublishedAt.value {
          notice := notice.(firstPublishedAt := Some(published));
        }
        if notice.latestPublishedAt.None? || published > notice.latestPublishedAt.value {
          notice := notice.(latestPublishedAt := Some(published));
        }
      }
      notices := notices[id := notice];
      versions := WithVersion(versions, versionId, version);
      jobs := Counted(jobs, item.job, Upserted(created));
      log := log + [VersionWrite(id, item, item.job, created, item.contentHash, RequestedNo(item.versionNo), item.isCurrent)];
    }

    method WriteAttachmentItem(item: Item, file: FileInfo, ids: Ids)
      modifies this
      ensures State() == After(old(State()), WriteAttachment(old(Tables()), norm, item, file, ids))
    {
      var id, stored, _ := ResolveNotice(item, ids.notice);
      if stored.None? {
        return;
      }
      var notice := ApplyNoticeFields(stored.value, item);
      if HashTaken(notices, id, notice) {
        return;
      }
      if file.urlHash.None? || file.fileUrl.None? || file.fileName.None? {
        notices := notices[id := notice];
        log := log + [AttachmentWrite(id, item, item.job, None)];
        return;
      }
      var found := FindAttachment(attachments, item.source, file.urlHash.value);
      var versionId: Option<VersionId> := None;
      if file.versionNo.Some? {
        versionId := ByVersionNo(versions, id, file.versionNo.value);
      }
      if versionId.None? {
        versionId := notice.currentVersionId;
      }
      var raw := FindRaw(raws, item.source, file.urlHash);
      var attachmentId := ids.attachment;
      var attachment := Attachment(item.source, file.urlHash.value, id, versionId, raw, file.fileUrl.value, file.fileName.value);
      if found.Some? {
        attachmentId := found.value;
        attachment := attachments[attachmentId];
        attachment := attachment.(notice := id, version := versionId, rawDocument := raw);
        attachment := attachment.(fileUrl := file.fileUrl.value, fileName := file.fileName.value);
      }
      notices := notices[id := notice];
      attachments := attachments[attachmentId := attachment];
      jobs := Counted(jobs, item.job, Upserted(found.None?));
      log := log + [AttachmentWrite(id, item, item.job, Some(found.Some?))];
    }

    method WriteRawDocumentItem(item: RawItem, ids: Ids)
      modifies this
      ensures State() == After(old(State()), WriteRaw(old(Tables()), item, ids))
    {
      if item.urlHash.None? {
        return;
      }
      if item.job.Some? && item.job.value !in jobs {
        return;
      }
      var existing := FindRaw(raws, item.source, item.urlHash);
      var same := DocumentWithContent(raws, item);
      var duplicate := same.Some? && (existing.None? || same.value != existing.value);
      if existing.None? {
        raws := raws[ids.raw := RawDocument(item.source, item.urlHash.value, item.contentHash, item.job, false, duplicate)];
      } else {
        var record := raws[existing.value];
        record := record.(contentHash := item.contentHash, job := item.job);
        record := record.(isDuplicateUrl := true, isDuplicateContent := duplicate);
        raws := raws[existing.value := record];
      }
      jobs := Counted(jobs, item.job, RawCounters(item.role, existing.Some?, duplicate));
      log := log + [RawWrite(item.job, item.role, existing.Some?, duplicate)];
    }

    method WriteErrorItem(job: Option<JobId>)
      modifies this
      ensures State() == After(old(State()), WriteError(old(Tables()), job))
    {
      if job.Some? && job.value !in jobs {
        return;
      }
      errors := errors + [job];
      jobs := Counted(jobs, job, NO_COUNTS.(errorCount := 1));
      log := log + [ErrorWrite(job)];
    }
  }
}
