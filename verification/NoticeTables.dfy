/**
 The crawler's writes (crawler/tender_crawler/writers/sqlalchemy_writer.py) as functions from
 tables to tables.  A write that violates a constraint is rolled back.  Items are the parsed items
 after their normalisation; hashes and keys are opaque non-empty texts.
 */
module NoticeTables {
  import opened Options
  import opened Ordering
  import opened CrawlJobs

  type Key = string
  type NoticeId = nat
  type VersionId = nat
  type AttachmentId = nat
  type RawId = nat

  const SECONDS_PER_DAY := 86400

  datatype NoticeType = Announcement | ChangeNotice | ResultNotice

  /** Descriptive columns: an absent value keeps what is stored. */
  datatype Details = Details(
    projectCode: Option<string>, issuer: Option<string>, region: Option<string>, deadlineAt: Option<Time>,
    budgetAmount: Option<int>, budgetCurrency: Option<string>, summary: Option<string>)
  {
    function Over(stored: Details): Details {
      Details(projectCode.Or(stored.projectCode), issuer.Or(stored.issuer), region.Or(stored.region), deadlineAt.Or(stored.deadlineAt),
              budgetAmount.Or(stored.budgetAmount), budgetCurrency.Or(stored.budgetCurrency), summary.Or(stored.summary))
    }

    function WithCurrency(): Details { this.(budgetCurrency := budgetCurrency.Or(Some("CNY"))) }
  }

  datatype Item = Item(
    source: SourceId, job: Option<JobId>,
    externalId: Option<Key>, sourceDuplicateKey: Option<Key>, dedupKey: Option<Key>, dedupHash: Option<Key>,
    title: Option<string>, noticeType: NoticeType, details: Details,
    publishedAt: Option<Time>, publishedDay: Option<int>,
    contentHash: Option<Key>, versionNo: Option<int>, isCurrent: bool, rawUrlHash: Option<Key>)

  datatype Notice = Notice(
    source: SourceId,
    externalId: Option<Key>, sourceDuplicateKey: Option<Key>, dedupKey: Option<Key>, dedupHash: Option<Key>,
    title: string, noticeType: NoticeType, details: Details,
    publishedAt: Option<Time>, firstPublishedAt: Option<Time>, latestPublishedAt: Option<Time>,
    currentVersionId: Option<VersionId>)

  datatype Version = Version(
    notice: NoticeId, versionNo: int, isCurrent: bool, contentHash: Key,
    dedupKey: Option<Key>, sourceDuplicateKey: Option<Key>,
    title: string, noticeType: NoticeType, details: Details, publishedAt: Option<Time>, rawDocument: Option<RawId>)

  datatype Attachment = Attachment(
    source: SourceId, urlHash: Key, notice: NoticeId, version: Option<VersionId>, rawDocument: Option<RawId>,
    fileUrl: string, fileName: string)

  datatype RawDocument = RawDocument(
    source: SourceId, urlHash: Key, contentHash: Option<Key>, job: Option<JobId>,
    isDuplicateUrl: bool, isDuplicateContent: bool)

  /** The file part of an attachment item. */
  datatype FileInfo = FileInfo(urlHash: Option<Key>, fileUrl: Option<string>, fileName: Option<string>, versionNo: Option<int>)

  datatype Role = ListPage(seen: nat, unique: nat, skipped: nat) | DetailPage | OtherPage

  datatype RawItem = RawItem(source: SourceId, job: Option<JobId>, urlHash: Option<Key>, contentHash: Option<Key>, role: Role)

  datatype Db = Db(
    notices: map<NoticeId, Notice>, versions: map<VersionId, Version>,
    attachments: map<AttachmentId, Attachment>, raws: map<RawId, RawDocument>,
    errors: seq<Option<JobId>>, jobs: map<JobId, Counters>)

  /** The next primary keys. */
  datatype Ids = Ids(notice: NoticeId, version: VersionId, attachment: AttachmentId, raw: RawId)

  ghost predicate FreshIds(db: Db, ids: Ids) {
    && (forall k | k in db.notices :: k < ids.notice)
    && (forall k | k in db.versions :: k < ids.version)
    && (forall k | k in db.attachments :: k < ids.attachment)
    && (forall k | k in db.raws :: k < ids.raw)
  }

  /** Text normalisation, left uninterpreted. */
  datatype Normaliser = Normaliser(
    title: string -> Option<string>, party: string -> Option<string>,
    region: string -> Option<string>, budget: int -> Option<string>)

  // ---------------------------------------------------------------- lookups

  /** The row with the lowest id, when several match. */
  function First(ids: set<nat>): (r: Option<nat>)
    ensures r.None? <==> ids == {}
    ensures r.Some? ==> r.value in ids && forall k | k in ids :: r.value <= k
  {
    if ids == {} then None else Some(Least(ids))
  }

  function ByExternalId(t: map<NoticeId, Notice>, source: SourceId, key: Key): (r: Option<NoticeId>)
    ensures r.None? ==> forall n | n in t :: !(t[n].source == source && t[n].externalId == Some(key))
    ensures r.Some? ==> r.value in t && t[r.value].source == source && t[r.value].externalId == Some(key)
    ensures r.Some? ==> forall n | n in t && t[n].source == source && t[n].externalId == Some(key) :: r.value <= n
  {
    var ids := set n | n in t && t[n].source == source && t[n].externalId == Some(key);
    assert forall n | n in t && t[n].source == source && t[n].externalId == Some(key) :: n in ids;
    First(ids)
  }

  function BySourceDuplicateKey(t: map<NoticeId, Notice>, source: SourceId, key: Key): (r: Option<NoticeId>)
    ensures r.None? ==> forall n | n in t :: !(t[n].source == source && t[n].sourceDuplicateKey == Some(key))
    ensures r.Some? ==> r.value in t && t[r.value].source == source && t[r.value].sourceDuplicateKey == Some(key)
    ensures r.Some? ==> forall n | n in t && t[n].source == source && t[n].sourceDuplicateKey == Some(key) :: r.value <= n
  {
    var ids := set n | n in t && t[n].source == source && t[n].sourceDuplicateKey == Some(key);
    assert forall n | n in t && t[n].source == source && t[n].sourceDuplicateKey == Some(key) :: n in ids;
    First(ids)
  }

  function ByDedupKey(t: map<NoticeId, Notice>, source: SourceId, key: Key): (r: Option<NoticeId>)
    ensures r.None? ==> forall n | n in t :: !(t[n].source == source && t[n].dedupKey == Some(key))
    ensures r.Some? ==> r.value in t && t[r.value].source == source && t[r.value].dedupKey == Some(key)
    ensures r.Some? ==> forall n | n in t && t[n].source == source && t[n].dedupKey == Some(key) :: r.value <= n
  {
    var ids := set n | n in t && t[n].source == source && t[n].dedupKey == Some(key);
    assert forall n | n in t && t[n].source == source && t[n].dedupKey == Some(key) :: n in ids;
    First(ids)
  }

  function ByDedupHash(t: map<NoticeId, Notice>, source: SourceId, key: Key): (r: Option<NoticeId>)
    ensures r.None? ==> forall n | n in t :: !(t[n].source == source && t[n].dedupHash == Some(key))
    ensures r.Some? ==> r.value in t && t[r.value].source == source && t[r.value].dedupHash == Some(key)
    ensures r.Some? ==> forall n | n in t && t[n].source == source && t[n].dedupHash == Some(key) :: r.value <= n
  {
    var ids := set n | n in t && t[n].source == source && t[n].dedupHash == Some(key);
    assert forall n | n in t && t[n].source == source && t[n].dedupHash == Some(key) :: n in ids;
    First(ids)
  }

  function Apply<A, B>(f: A -> Option<B>, x: Option<A>): Option<B> {
    if x.None? then None else f(x.value)
  }

  function One(b: bool): nat { if b then 1 else 0 }

  function Matches(a: Option<string>, b: Option<string>): nat { One(a.Some? && a == b) }

  /** Same day, same normalised title, and the only signal or at least two signals agree. */
  predicate HighlySimilar(norm: Normaliser, item: Item, n: Notice) {
    var title := Apply(norm.title, item.title);
    var party := Apply(norm.party, item.details.issuer);
    var region := Apply(norm.region, item.details.region);
    var budget := Apply(norm.budget, item.details.budgetAmount);
    var available := One(party.Some?) + One(region.Some?) + One(budget.Some?);
    var matching := Matches(party, Apply(norm.party, n.details.issuer)) + Matches(region, Apply(norm.region, n.details.region))
                    + Matches(budget, Apply(norm.budget, n.details.budgetAmount));
    && title.Some? && item.publishedDay.Some?
    && n.publishedAt.Some? && n.publishedAt.value / SECONDS_PER_DAY == item.publishedDay.value
    && norm.title(n.title) == title
    && ((available == 1 && matching == 1) || (available >= 2 && matching >= 2))
  }

  function BySimilarity(t: map<NoticeId, Notice>, norm: Normaliser, item: Item): (r: Option<NoticeId>)
    ensures r.None? ==> forall n | n in t :: !(t[n].source == item.source && HighlySimilar(norm, item, t[n]))
    ensures r.Some? ==> r.value in t && t[r.value].source == item.source && HighlySimilar(norm, item, t[r.value])
    ensures r.Some? ==> forall n | n in t && t[n].source == item.source && HighlySimilar(norm, item, t[n]) :: r.value <= n
  {
    var ids := set n | n in t && t[n].source == item.source && HighlySimilar(norm, item, t[n]);
    assert forall n | n in t && t[n].source == item.source && HighlySimilar(norm, item, t[n]) :: n in ids;
    First(ids)
  }

  /** The five-stage identity lookup. */
  function Lookup(t: map<NoticeId, Notice>, norm: Normaliser, item: Item): Option<NoticeId> {
    var byExternal := if item.externalId.Some? then ByExternalId(t, item.source, item.externalId.value) else None;
    if byExternal.Some? then byExternal else
    var byDuplicate := if item.sourceDuplicateKey.Some? then BySourceDuplicateKey(t, item.source, item.sourceDuplicateKey.value) else None;
    if byDuplicate.Some? then byDuplicate else
    var byKey := if item.dedupKey.Some? then ByDedupKey(t, item.source, item.dedupKey.value) else None;
    if byKey.Some? then byKey else
    var byHash := if item.dedupHash.Some? then ByDedupHash(t, item.source, item.dedupHash.value) else None;
    if byHash.Some? then byHash else BySimilarity(t, norm, item)
  }

  // ---------------------------------------------------------------- notice rows

  function Earliest(a: Option<Time>, b: Option<Time>): Option<Time> {
    if a.None? || (b.Some? && b.value < a.value) then b else a
  }

  function Latest(a: Option<Time>, b: Option<Time>): Option<Time> {
    if a.None? || (b.Some? && b.value > a.value) then b else a
  }

  function NewNotice(item: Item): Notice
    requires item.title.Some?
  {
    Notice(item.source, item.externalId, item.sourceDuplicateKey, item.dedupKey, item.dedupHash, item.title.value,
           item.noticeType, item.details.WithCurrency(), item.publishedAt, item.publishedAt, item.publishedAt, None)
  }

  function Applied(n: Notice, item: Item): Notice {
    n.(title := item.title.GetOr(n.title),
       noticeType := item.noticeType,
       externalId := item.externalId.Or(n.externalId),
       dedupHash := item.dedupHash.Or(n.dedupHash),
       dedupKey := item.dedupKey.Or(item.sourceDuplicateKey).Or(n.dedupKey),
       sourceDuplicateKey := item.sourceDuplicateKey.Or(n.sourceDuplicateKey),
       details := item.details.Over(n.details),
       publishedAt := item.publishedAt.Or(n.publishedAt),
       firstPublishedAt := Earliest(n.firstPublishedAt, item.publishedAt),
       latestPublishedAt := Latest(n.latestPublishedAt, item.publishedAt))
  }

  /** The notice an item belongs to, with the item's fields stamped on it. */
  datatype Resolved = NoNotice | Resolved(id: NoticeId, row: Notice, created: bool)

  function Resolve(t: map<NoticeId, Notice>, norm: Normaliser, item: Item, next: NoticeId): Resolved {
    var found := Lookup(t, norm, item);
    if found.Some? && found.value in t then Resolved(found.value, Applied(t[found.value], item), false)
    else if item.title.None? then NoNotice
    else Resolved(next, Applied(NewNotice(item), item), true)
  }

  /** The unique index on (source, dedup_hash) that the lookup alone does not keep. */
  predicate HashTaken(t: map<NoticeId, Notice>, id: NoticeId, row: Notice) {
    row.dedupHash.Some? && exists n | n in t :: n != id && t[n].source == row.source && t[n].dedupHash == row.dedupHash
  }

  // ---------------------------------------------------------------- version rows

  function VersionsOf(t: map<VersionId, Version>, notice: NoticeId): set<VersionId> {
    set v | v in t && t[v].notice == notice
  }

  function ByContentHash(t: map<VersionId, Version>, notice: NoticeId, hash: Key): (r: Option<VersionId>)
    ensures r.None? ==> forall v | v in t :: !(t[v].notice == notice && t[v].contentHash == hash)
    ensures r.Some? ==> r.value in t && t[r.value].notice == notice && t[r.value].contentHash == hash
    ensures r.Some? ==> forall v | v in t && t[v].notice == notice && t[v].contentHash == hash :: r.value <= v
  {
    var ids := set v | v in t && t[v].notice == notice && t[v].contentHash == hash;
    assert forall v | v in t && t[v].notice == notice && t[v].contentHash == hash :: v in ids;
    First(ids)
  }

  function ByVersionNo(t: map<VersionId, Version>, notice: NoticeId, no: int): (r: Option<VersionId>)
    ensures r.None? ==> forall v | v in t :: !(t[v].notice == notice && t[v].versionNo == no)
    ensures r.Some? ==> r.value in t && t[r.value].notice == notice && t[r.value].versionNo == no
    ensures r.Some? ==> forall v | v in t && t[v].notice == notice && t[v].versionNo == no :: r.value <= v
  {
    var ids := set v | v in t && t[v].notice == notice && t[v].versionNo == no;
    assert forall v | v in t && t[v].notice == notice && t[v].versionNo == no :: v in ids;
    First(ids)
  }

  function HighestNo(t: map<VersionId, Version>, ids: seq<VersionId>): (r: Option<int>)
    requires forall v | v in ids :: v in t
    ensures r.None? <==> ids == []
    ensures r.Some? ==> exists v :: v in ids && t[v].versionNo == r.value
    ensures r.Some? ==> forall v | v in ids :: t[v].versionNo <= r.value
  {
    if ids == [] then None
    else
      var rest := HighestNo(t, ids[1..]);
      assert ids[0] in ids && forall v | v in ids[1..] :: v in ids;
      assert forall v | v in ids :: v == ids[0] || v in ids[1..];
      if rest.Some? && rest.value > t[ids[0]].versionNo then rest else Some(t[ids[0]].versionNo)
  }

  /** `MAX(version_no)`. */
  function MaxVersionNo(t: map<VersionId, Version>, notice: NoticeId): (r: Option<int>)
    ensures r.None? ==> forall v | v in t :: t[v].notice != notice
    ensures r.Some? ==> exists v :: v in t && t[v].notice == notice && t[v].versionNo == r.value
    ensures r.Some? ==> forall v | v in t && t[v].notice == notice :: t[v].versionNo <= r.value
  {
    var ids := Ascending(VersionsOf(t, notice));
    assert forall v | v in t && t[v].notice == notice :: v in VersionsOf(t, notice) && v in ids;
    HighestNo(t, ids)
  }

  /** An unset or zero number asks for version 1. */
  function RequestedNo(no: Option<int>): int {
    if no.None? || no.value == 0 then 1 else no.value
  }

  datatype VersionChoice = NoVersion | OldVersion(id: VersionId) | NewVersion(no: int)

  function ChooseVersion(t: map<VersionId, Version>, notice: NoticeId, item: Item): VersionChoice {
    var byHash := if item.contentHash.Some? then ByContentHash(t, notice, item.contentHash.value) else None;
    if byHash.Some? then OldVersion(byHash.value) else
    var requested := RequestedNo(item.versionNo);
    var byNo := ByVersionNo(t, notice, requested);
    if byNo.Some? && item.contentHash.None? then OldVersion(byNo.value)
    else if item.title.None? || item.contentHash.None? then NoVersion
    else if byNo.Some? then NewVersion(MaxVersionNo(t, notice).GetOr(0) + 1)
    else NewVersion(requested)
  }

  function FindRaw(t: map<RawId, RawDocument>, source: SourceId, urlHash: Option<Key>): (r: Option<RawId>)
    ensures r.None? && urlHash.Some? ==> forall d | d in t :: !(t[d].source == source && t[d].urlHash == urlHash.value)
    ensures r.Some? ==> urlHash.Some? && r.value in t && t[r.value].source == source && t[r.value].urlHash == urlHash.value
  {
    if urlHash.None? then None
    else
      var ids := set d | d in t && t[d].source == source && t[d].urlHash == urlHash.value;
      assert forall d | d in t && t[d].source == source && t[d].urlHash == urlHash.value :: d in ids;
      First(ids)
  }

  /** The version row after the write; the row stored before supplies what the item lacks. */
  function VersionRow(notice: NoticeId, title: string, no: int, hash: Key, storedDedupKey: Option<Key>, storedDuplicateKey: Option<Key>,
                      item: Item, raw: Option<RawId>): Version
  {
    Version(notice, no, item.isCurrent, item.contentHash.GetOr(hash),
            item.dedupKey.Or(item.sourceDuplicateKey).Or(storedDedupKey),
            item.sourceDuplicateKey.Or(storedDuplicateKey),
            item.title.GetOr(title), item.noticeType, item.details.WithCurrency(), item.publishedAt, raw)
  }

  function WithVersion(t: map<VersionId, Version>, id: VersionId, row: Version): map<VersionId, Version> {
    var t' := t[id := row];
    if !row.isCurrent then t'
    else map v | v in t' :: if t'[v].notice == row.notice && v != id then t'[v].(isCurrent := false) else t'[v]
  }

  // ---------------------------------------------------------------- job counters

  function Counted(jobs: map<JobId, Counters>, job: Option<JobId>, deltas: Counters): map<JobId, Counters> {
    if job.None? || job.value !in jobs then jobs else jobs[job.value := jobs[job.value].Plus(deltas)]
  }

  function Upserted(created: bool): Counters {
    NO_COUNTS.(deduplicatedCount := One(!created), recordsInserted := One(created), recordsUpdated := One(!created))
  }

  // ---------------------------------------------------------------- writes

  /** The record of a committed write: the item, the notice it was resolved to, and what was found. */
  datatype Write =
    | NoticeWrite(notice: NoticeId, item: Item, job: Option<JobId>, created: bool)
    | SuppressedWrite(job: Option<JobId>)
    | VersionWrite(notice: NoticeId, item: Item, job: Option<JobId>, created: bool,
                   hash: Option<Key>, requestedNo: int, isCurrent: bool)
    | AttachmentWrite(notice: NoticeId, item: Item, job: Option<JobId>, replaced: Option<bool>)
    | RawWrite(job: Option<JobId>, role: Role, existed: bool, duplicateContent: bool)
    | ErrorWrite(job: Option<JobId>)

  /** What a write does: nothing, or new tables together with the record of it. */
  datatype Effect =
    | Skipped              // nothing to write to; the session is closed without a commit
    | RolledBack           // a constraint was violated
    | Committed(db: Db, write: Write)

  /** An already stored version with this content under one of the item's keys. */
  predicate AlreadyStored(db: Db, item: Item) {
    var key := item.dedupKey.Or(item.sourceDuplicateKey);
    && item.contentHash.Some?
    && (key.Some? || item.sourceDuplicateKey.Some?)
    && exists v | v in db.versions :: StoredUnder(db, db.versions[v], item, key)
  }

  predicate StoredUnder(db: Db, version: Version, item: Item, key: Option<Key>) {
    && version.notice in db.notices && db.notices[version.notice].source == item.source
    && ((key.Some? && version.dedupKey == key) || (item.sourceDuplicateKey.Some? && version.sourceDuplicateKey == item.sourceDuplicateKey))
    && Some(version.contentHash) == item.contentHash
  }

  function WriteNotice(db: Db, norm: Normaliser, item: Item, ids: Ids): Effect {
    if AlreadyStored(db, item) then
      Committed(db.(jobs := Counted(db.jobs, item.job, NO_COUNTS.(deduplicatedCount := 1, duplicatesSuppressed := 1))),
                SuppressedWrite(item.job))
    else
      var r := Resolve(db.notices, norm, item, ids.notice);
      if r.NoNotice? then Skipped
      else if HashTaken(db.notices, r.id, r.row) then RolledBack
      else Committed(db.(notices := db.notices[r.id := r.row],
                         jobs := Counted(db.jobs, item.job, Upserted(r.created).(noticesUpserted := 1))),
                     NoticeWrite(r.id, item, item.job, r.created))
  }

  function WriteVersion(db: Db, norm: Normaliser, item: Item, ids: Ids): Effect {
    var r := Resolve(db.notices, norm, item, ids.notice);
    if r.NoNotice? then Skipped else
    var choice := ChooseVersion(db.versions, r.id, item);
    if choice.NoVersion? then Skipped
    else if HashTaken(db.notices, r.id, r.row) then RolledBack
    else
      var raw := FindRaw(db.raws, item.source, item.rawUrlHash);
      var id := if choice.OldVersion? then choice.id else ids.version;
      var row := if choice.OldVersion? && choice.id in db.versions
                 then var stored := db.versions[choice.id];
                      VersionRow(r.id, r.row.title, stored.versionNo, stored.contentHash, stored.dedupKey, stored.sourceDuplicateKey, item, raw)
                 else VersionRow(r.id, r.row.title, if choice.NewVersion? then choice.no else 1, item.contentHash.GetOr(""),
                                 None, None, item, raw);
      var notice := if row.isCurrent then r.row.(currentVersionId := Some(id)) else r.row;
      Committed(db.(notices := db.notices[r.id := notice],
                    versions := WithVersion(db.versions, id, row),
                    jobs := Counted(db.jobs, item.job, Upserted(choice.NewVersion?))),
                VersionWrite(r.id, item, item.job, choice.NewVersion?,
                             item.contentHash, RequestedNo(item.versionNo), item.isCurrent))
  }

  function FindAttachment(t: map<AttachmentId, Attachment>, source: SourceId, urlHash: Key): (r: Option<AttachmentId>)
    ensures r.None? ==> forall a | a in t :: !(t[a].source == source && t[a].urlHash == urlHash)
    ensures r.Some? ==> r.value in t && t[r.value].source == source && t[r.value].urlHash == urlHash
    ensures r.Some? ==> forall a | a in t && t[a].source == source && t[a].urlHash == urlHash :: r.value <= a
  {
    var ids := set a | a in t && t[a].source == source && t[a].urlHash == urlHash;
    assert forall a | a in t && t[a].source == source && t[a].urlHash == urlHash :: a in ids;
    First(ids)
  }

  /** The version an attachment hangs on: the numbered one, else the notice's current one. */
  function AttachedVersion(versions: map<VersionId, Version>, notice: NoticeId, row: Notice, no: Option<int>): Option<VersionId> {
    (if no.Some? then ByVersionNo(versions, notice, no.value) else None).Or(row.currentVersionId)
  }

  function WriteAttachment(db: Db, norm: Normaliser, item: Item, file: FileInfo, ids: Ids): Effect {
    var r := Resolve(db.notices, norm, item, ids.notice);
    if r.NoNotice? then Skipped
    else if HashTaken(db.notices, r.id, r.row) then RolledBack
    else
      var stamped := db.(notices := db.notices[r.id := r.row]);
      if file.urlHash.None? || file.fileUrl.None? || file.fileName.None? then
        Committed(stamped, AttachmentWrite(r.id, item, item.job, None))
      else
        var found := FindAttachment(db.attachments, item.source, file.urlHash.value);
        var row := Attachment(item.source, file.urlHash.value, r.id, AttachedVersion(db.versions, r.id, r.row, file.versionNo),
                              FindRaw(db.raws, item.source, file.urlHash), file.fileUrl.value, file.fileName.value);
        Committed(stamped.(attachments := db.attachments[found.GetOr(ids.attachment) := row],
                           jobs := Counted(db.jobs, item.job, Upserted(found.None?))),
                  AttachmentWrite(r.id, item, item.job, Some(found.Some?)))
  }

  /** A document of the source that has the item's content. */
  function DocumentWithContent(t: map<RawId, RawDocument>, item: RawItem): (r: Option<RawId>)
    ensures r.None? && item.contentHash.Some? ==> forall d | d in t :: !(t[d].source == item.source && t[d].contentHash == item.contentHash)
    ensures r.Some? ==>
              item.contentHash.Some? && r.value in t && t[r.value].source == item.source && t[r.value].contentHash == item.contentHash
  {
    if item.contentHash.None? then None
    else
      var ids := set d | d in t && t[d].source == item.source && t[d].contentHash == item.contentHash;
      assert forall d | d in t && t[d].source == item.source && t[d].contentHash == item.contentHash :: d in ids;
      First(ids)
  }

  function RawCounters(role: Role, existed: bool, duplicate: bool): Counters {
    var base := Upserted(!existed).(pagesFetched := 1, documentsSaved := 1, deduplicatedCount := One(existed || duplicate));
    match role
    case ListPage(seen, unique, skipped) => base.(listItemsSeen := seen, listItemsUnique := unique, listItemsSkipped := skipped)
    case DetailPage => base.(detailPagesFetched := 1)
    case OtherPage => base
  }

  function WriteRaw(db: Db, item: RawItem, ids: Ids): Effect {
    if item.urlHash.None? then Skipped
    else if item.job.Some? && item.job.value !in db.jobs then RolledBack
    else
      var existing := FindRaw(db.raws, item.source, item.urlHash);
      var same := DocumentWithContent(db.raws, item);
      var duplicate := same.Some? && same != existing;
      var row := RawDocument(item.source, item.urlHash.value, item.contentHash, item.job, existing.Some?, duplicate);
      Committed(db.(raws := db.raws[existing.GetOr(ids.raw) := row],
                    jobs := Counted(db.jobs, item.job, RawCounters(item.role, existing.Some?, duplicate))),
                RawWrite(item.job, item.role, existing.Some?, duplicate))
  }

  function WriteError(db: Db, job: Option<JobId>): Effect {
    if job.Some? && job.value !in db.jobs then RolledBack
    else Committed(db.(errors := db.errors + [job], jobs := Counted(db.jobs, job, NO_COUNTS.(errorCount := 1))), ErrorWrite(job))
  }

  // ---------------------------------------------------------------- runs

  /** The tables and everything committed to them. */
  datatype Store = Store(db: Db, log: seq<Write>)

  datatype Event =
    | NoticeItem(item: Item, ids: Ids)
    | VersionItem(item: Item, ids: Ids)
    | AttachmentItem(item: Item, file: FileInfo, ids: Ids)
    | RawDocumentItem(raw: RawItem, ids: Ids)
    | ErrorItem(job: Option<JobId>)

  function EffectOf(db: Db, norm: Normaliser, e: Event): Effect {
    match e
    case NoticeItem(item, ids) => WriteNotice(db, norm, item, ids)
    case VersionItem(item, ids) => WriteVersion(db, norm, item, ids)
    case AttachmentItem(item, file, ids) => WriteAttachment(db, norm, item, file, ids)
    case RawDocumentItem(raw, ids) => WriteRaw(db, raw, ids)
    case ErrorItem(job) => WriteError(db, job)
  }

  ghost predicate FreshEvent(db: Db, e: Event) {
    e.ErrorItem? || FreshIds(db, e.ids)
  }

  function After(s: Store, effect: Effect): Store {
    if effect.Committed? then Store(effect.db, s.log + [effect.write]) else s
  }

  /** A write whose keys are not the next ones cannot happen. */
  ghost function Next(s: Store, norm: Normaliser, e: Event): Store {
    if FreshEvent(s.db, e) then After(s, EffectOf(s.db, norm, e)) else s
  }

  ghost function Run(s: Store, norm: Normaliser, events: seq<Event>): Store {
    if events == [] then s else Next(Run(s, norm, events[..|events| - 1]), norm, events[|events| - 1])
  }

  /** Empty tables with the given jobs, all counters at zero. */
  function Empty(jobs: set<JobId>): Store {
    Store(Db(map[], map[], map[], map[], [], map j | j in jobs :: NO_COUNTS), [])
  }
}
