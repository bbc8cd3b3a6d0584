/** Which notice an item belongs to and which version it becomes, in terms of the stored rows. */
module NoticeIdentity {
  import opened Options
  import opened CrawlJobs
  import opened NoticeTables
  import opened NoticeCoherence

  // ---------------------------------------------------------------- the notice of an item

  predicate Agrees(given: Option<string>, stored: Option<string>) { given.Some? && given == stored }

  predicate SameIssuer(norm: Normaliser, a: Option<string>, b: Option<string>) {
    a.Some? && b.Some? && Agrees(norm.party(a.value), norm.party(b.value))
  }

  predicate SameRegion(norm: Normaliser, a: Option<string>, b: Option<string>) {
    a.Some? && b.Some? && Agrees(norm.region(a.value), norm.region(b.value))
  }

  predicate SameBudget(norm: Normaliser, a: Option<int>, b: Option<int>) {
    a.Some? && b.Some? && Agrees(norm.budget(a.value), norm.budget(b.value))
  }

  /** The same title on the same day; and of issuer, region and budget, either two agree, or the item
      has only one of them and that one agrees. */
  predicate Similar(norm: Normaliser, item: Item, n: Notice) {
    var noIssuer := item.details.issuer.None? || norm.party(item.details.issuer.value).None?;
    var noRegion := item.details.region.None? || norm.region(item.details.region.value).None?;
    var noBudget := item.details.budgetAmount.None? || norm.budget(item.details.budgetAmount.value).None?;
    var issuer := SameIssuer(norm, item.details.issuer, n.details.issuer);
    var region := SameRegion(norm, item.details.region, n.details.region);
    var budget := SameBudget(norm, item.details.budgetAmount, n.details.budgetAmount);
    && item.title.Some? && Agrees(norm.title(item.title.value), norm.title(n.title))
    && n.publishedAt.Some? && item.publishedDay.Some?
    && item.publishedDay.value * 86400 <= n.publishedAt.value < (item.publishedDay.value + 1) * 86400
    && ((issuer && region) || (issuer && budget) || (region && budget)
        || (issuer && noRegion && noBudget) || (region && noIssuer && noBudget) || (budget && noIssuer && noRegion))
  }

  /** Counting the signals that are there and those that agree comes to the same. */
  lemma SimilarExactly(norm: Normaliser, item: Item, n: Notice)
    ensures HighlySimilar(norm, item, n) <==> Similar(norm, item, n)
  {
  }

  /** How a stored notice can be recognised, the most telling way first. */
  predicate Recognises(norm: Normaliser, item: Item, n: Notice, stage: int) {
    n.source == item.source
    && match stage
       case 0 => Agrees(item.externalId, n.externalId)
       case 1 => Agrees(item.sourceDuplicateKey, n.sourceDuplicateKey)
       case 2 => Agrees(item.dedupKey, n.dedupKey)
       case 3 => Agrees(item.dedupHash, n.dedupHash)
       case 4 => Similar(norm, item, n)
       case _ => false
  }

  predicate RecognisedAt(t: map<NoticeId, Notice>, norm: Normaliser, item: Item, stage: int, n: NoticeId) {
    n in t && Recognises(norm, item, t[n], stage)
  }

  /** `n` is the oldest notice recognised at the earliest stage at which any notice is. */
  ghost predicate FirstMatch(t: map<NoticeId, Notice>, norm: Normaliser, item: Item, stage: int, n: NoticeId) {
    && RecognisedAt(t, norm, item, stage, n)
    && (forall earlier: int, m: NoticeId | earlier < stage :: !RecognisedAt(t, norm, item, earlier, m))
    && (forall m | RecognisedAt(t, norm, item, stage, m) :: n <= m)
  }

  lemma LastStage(t: map<NoticeId, Notice>, norm: Normaliser, item: Item)
    ensures var found := BySimilarity(t, norm, item);
            && (found.None? ==> forall m :: !RecognisedAt(t, norm, item, 4, m))
            && (found.Some? ==> RecognisedAt(t, norm, item, 4, found.value))
            && (found.Some? ==> forall m | RecognisedAt(t, norm, item, 4, m) :: found.value <= m)
  {
    forall m | m in t ensures HighlySimilar(norm, item, t[m]) <==> Similar(norm, item, t[m]) {
      SimilarExactly(norm, item, t[m]);
    }
    hide HighlySimilar, Similar, BySimilarity;
  }

  lemma StageOf(t: map<NoticeId, Notice>, norm: Normaliser, item: Item) returns (stage: int)
    ensures var found := Lookup(t, norm, item);
            && (found.Some? ==> FirstMatch(t, norm, item, stage, found.value))
            && (found.None? ==> forall k: int, m: NoticeId :: !RecognisedAt(t, norm, item, k, m))
  {
    LastStage(t, norm, item);
    hide HighlySimilar, Similar, ByExternalId, BySourceDuplicateKey, ByDedupKey, ByDedupHash, BySimilarity;
    stage :=
      if item.externalId.Some? && ByExternalId(t, item.source, item.externalId.value).Some? then 0
      else if item.sourceDuplicateKey.Some? && BySourceDuplicateKey(t, item.source, item.sourceDuplicateKey.value).Some? then 1
      else if item.dedupKey.Some? && ByDedupKey(t, item.source, item.dedupKey.value).Some? then 2
      else if item.dedupHash.Some? && ByDedupHash(t, item.source, item.dedupHash.value).Some? then 3
      else 4;
  }

  /** The lookup finds a notice exactly if some stage recognises one, and it is the oldest one of the
      earliest such stage. */
  lemma {:induction false} LookupIsFirstMatch(t: map<NoticeId, Notice>, norm: Normaliser, item: Item, n: NoticeId)
    ensures Lookup(t, norm, item) == Some(n) <==> exists stage: int :: FirstMatch(t, norm, item, stage, n)
  {
    var stage := StageOf(t, norm, item);
    hide Lookup, RecognisedAt;
  }

  // ---------------------------------------------------------------- what a write finds

  /** The source has a version with the item's content under one of the item's keys, the source
      duplicate key standing in for a missing dedup key. */
  ghost predicate StoredAlready(db: Db, item: Item) {
    exists v | v in db.versions ::
      && db.versions[v].notice in db.notices && db.notices[db.versions[v].notice].source == item.source
      && item.contentHash == Some(db.versions[v].contentHash)
      && (Agrees(item.sourceDuplicateKey, db.versions[v].sourceDuplicateKey)
          || Agrees(if item.dedupKey.Some? then item.dedupKey else item.sourceDuplicateKey, db.versions[v].dedupKey))
  }

  /** Another notice of the source has the dedup hash that notice `n` would get from the item. */
  ghost predicate Clashes(t: map<NoticeId, Notice>, item: Item, n: NoticeId) {
    var hash := if item.dedupHash.Some? then item.dedupHash else if n in t then t[n].dedupHash else None;
    exists m | m in t :: m != n && t[m].source == item.source && Agrees(hash, t[m].dedupHash)
  }

  lemma StoredAlreadyExactly(db: Db, item: Item)
    ensures AlreadyStored(db, item) <==> StoredAlready(db, item)
  {
    var key := item.dedupKey.Or(item.sourceDuplicateKey);
    if StoredAlready(db, item) {
      var v :| v in db.versions
               && db.versions[v].notice in db.notices && db.notices[db.versions[v].notice].source == item.source
               && item.contentHash == Some(db.versions[v].contentHash)
               && (Agrees(item.sourceDuplicateKey, db.versions[v].sourceDuplicateKey)
                   || Agrees(if item.dedupKey.Some? then item.dedupKey else item.sourceDuplicateKey, db.versions[v].dedupKey));
      assert StoredUnder(db, db.versions[v], item, key);
    }
    if AlreadyStored(db, item) {
      var v :| v in db.versions && StoredUnder(db, db.versions[v], item, key);
    }
  }

  lemma ClashesExactly(t: map<NoticeId, Notice>, norm: Normaliser, item: Item, next: NoticeId)
    requires forall k | k in t :: k < next
    ensures var r := Resolve(t, norm, item, next);
            var found := Lookup(t, norm, item);
            && (r.NoNotice? <==> found.None? && item.title.None?)
            && (r.Resolved? ==> r.id == (if found.Some? then found.value else next) && (HashTaken(t, r.id, r.row) <==> Clashes(t, item, r.id)))
  {
    ResolvedRow(t, norm, item, next);
    FoundIsInSource(t, norm, item);
    hide Lookup;
  }

  /** When an item without a file is dropped, rolled back or written, and to which notice: dropped if no
      notice is found and it has no title to start one, rolled back if the dedup hash would clash.  A
      notice item is suppressed exactly if its content is stored already; a version item is also dropped
      if it becomes no version. */
  lemma {:induction false} OutcomesExactly(db: Db, norm: Normaliser, item: Item, file: FileInfo, ids: Ids)
    requires FreshIds(db, ids)
    ensures var found := Lookup(db.notices, norm, item);
            var n := if found.Some? then found.value else ids.notice;
            var lost := found.None? && item.title.None?;
            var clash := Clashes(db.notices, item, n);
            var (asNotice, asVersion, asFile) := (WriteNotice(db, norm, item, ids), WriteVersion(db, norm, item, ids), WriteAttachment(db, norm, item, file, ids));
            var unversioned := lost || ChooseVersion(db.versions, n, item) == NoVersion;
            && (asNotice.Committed? && asNotice.write.SuppressedWrite? <==> StoredAlready(db, item))
            && (asNotice == Skipped <==> !StoredAlready(db, item) && lost)
            && (asNotice == RolledBack <==> !StoredAlready(db, item) && !lost && clash)
            && (asNotice.Committed? && !StoredAlready(db, item) ==> asNotice.write.NoticeWrite? && asNotice.write.notice == n)
            && (asVersion == Skipped <==> unversioned) && (asVersion == RolledBack <==> !unversioned && clash)
            && (asVersion.Committed? ==> asVersion.write.VersionWrite? && asVersion.write.notice == n)
            && (asFile == Skipped <==> lost) && (asFile == RolledBack <==> !lost && clash)
            && (asFile.Committed? ==> asFile.write.AttachmentWrite? && asFile.write.notice == n)
  {
    ClashesExactly(db.notices, norm, item, ids.notice);
    StoredAlreadyExactly(db, item);
    hide Lookup, Resolve, HashTaken, AlreadyStored, StoredAlready, Clashes, ChooseVersion, VersionRow, WithVersion, Counted, Upserted, FindRaw, FindAttachment,
      AttachedVersion, RequestedNo;
  }

  /** A write that is logged as having created a row added one, and otherwise it changed the row found. */
  lemma {:induction false} FlagsTellTheTruth(db: Db, norm: Normaliser, e: Event)
    requires FreshEvent(db, e) && EffectOf(db, norm, e).Committed? && FileKeys(db)
    ensures var effect := EffectOf(db, norm, e);
            match effect.write
            case NoticeWrite(n, _, _, created) => (created <==> n !in db.notices) && n in effect.db.notices
            case VersionWrite(n, _, _, created, _, _, _) => (created <==> effect.db.versions.Keys != db.versions.Keys) && n in effect.db.notices
            case AttachmentWrite(n, _, _, replaced) =>
              && n in effect.db.notices
              && (replaced == Some(false) <==> effect.db.attachments.Keys != db.attachments.Keys)
              && (replaced == None ==> effect.db.attachments == db.attachments && effect.db.jobs == db.jobs)
            case RawWrite(_, _, existed, _) => existed <==> effect.db.raws.Keys == db.raws.Keys
            case SuppressedWrite(_) => effect.db == db.(jobs := effect.db.jobs)
            case ErrorWrite(job) => effect.db.errors == db.errors + [job]
  {
    hide Resolve, HashTaken, AlreadyStored, WithVersion, ChooseVersion, VersionRow, AttachedVersion, Counted, FindRaw, FindAttachment, DocumentWithContent,
      Upserted, RawCounters, NewNotice, Applied, RequestedNo;
    match e
    case NoticeItem(item, ids) => ResolvedRow(db.notices, norm, item, ids.notice);
    case VersionItem(item, ids) =>
      var id, row, notice := VersionEffect(db, norm, item, ids);
      WithVersionFacts(db.versions, id, row);
      assert id in EffectOf(db, norm, e).db.versions;
    case AttachmentItem(item, file, ids) =>
      var effect := EffectOf(db, norm, e);
      assert effect.write.replaced == Some(false) ==> ids.attachment in effect.db.attachments && ids.attachment !in db.attachments;
    case RawDocumentItem(raw, ids) =>
      var effect := EffectOf(db, norm, e);
      assert !effect.write.existed ==> ids.raw in effect.db.raws && ids.raw !in db.raws;
    case ErrorItem(job) =>
  }

  // ---------------------------------------------------------------- the version of an item

  ghost predicate UnknownContent(t: map<VersionId, Version>, n: NoticeId, hash: Key) { forall v :: !HasContent(t, v, n, hash) }

  ghost predicate FreeNo(t: map<VersionId, Version>, n: NoticeId, no: int) { forall v :: !HasNo(t, v, n, no) }

  /** Known content is the version that has it, whatever number the item asks for.  An item without
      content is the version of its number.  New content becomes a new version, under the number asked
      for if that is free, else one above the notice's highest.  Everything else is dropped. */
  lemma {:induction false} ChoiceExactly(t: map<VersionId, Version>, n: NoticeId, item: Item, v: VersionId, highest: int)
    requires VersionKeys(t)
    ensures var choice := ChooseVersion(t, n, item);
            var no := if item.versionNo.Some? && item.versionNo.value != 0 then item.versionNo.value else 1;
            match item.contentHash
            case Some(hash) =>
              && (HasContent(t, v, n, hash) ==> choice == OldVersion(v))
              && (UnknownContent(t, n, hash) && item.title.None? ==> choice == NoVersion)
              && (UnknownContent(t, n, hash) && item.title.Some? && FreeNo(t, n, no) ==> choice == NewVersion(no))
              && (UnknownContent(t, n, hash) && item.title.Some? && !FreeNo(t, n, no) && HasNo(t, v, n, highest)
                  && (forall w | w in t && t[w].notice == n :: t[w].versionNo <= highest) ==>
                    choice == NewVersion(highest + 1))
            case None =>
              && (HasNo(t, v, n, no) ==> choice == OldVersion(v))
              && (FreeNo(t, n, no) ==> choice == NoVersion)
  {
    hide ByContentHash, ByVersionNo, MaxVersionNo;
    var no := RequestedNo(item.versionNo);
    if item.contentHash.Some? {
      var byHash := ByContentHash(t, n, item.contentHash.value);
      assert byHash.Some? ==> HasContent(t, byHash.value, n, item.contentHash.value);
    }
    var byNo := ByVersionNo(t, n, no);
    assert byNo.Some? ==> HasNo(t, byNo.value, n, no);
    var top := MaxVersionNo(t, n);
  }
}
