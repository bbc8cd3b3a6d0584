/** What every run of committed writes keeps true of the notice store. */
module NoticeCoherence {
  import opened Options
  import opened Ordering
  import opened CrawlJobs
  import opened NoticeTables

  // ---------------------------------------------------------------- keys that stay unique

  predicate HasExternalId(t: map<NoticeId, Notice>, n: NoticeId, source: SourceId, key: Key) {
    n in t && t[n].source == source && t[n].externalId == Some(key)
  }

  predicate HasDedupHash(t: map<NoticeId, Notice>, n: NoticeId, source: SourceId, key: Key) {
    n in t && t[n].source == source && t[n].dedupHash == Some(key)
  }

  predicate HasNo(t: map<VersionId, Version>, v: VersionId, notice: NoticeId, no: int) {
    v in t && t[v].notice == notice && t[v].versionNo == no
  }

  predicate HasContent(t: map<VersionId, Version>, v: VersionId, notice: NoticeId, hash: Key) {
    v in t && t[v].notice == notice && t[v].contentHash == hash
  }

  predicate HasFile(t: map<AttachmentId, Attachment>, a: AttachmentId, source: SourceId, urlHash: Key) {
    a in t && t[a].source == source && t[a].urlHash == urlHash
  }

  predicate HasUrl(t: map<RawId, RawDocument>, r: RawId, source: SourceId, urlHash: Key) {
    r in t && t[r].source == source && t[r].urlHash == urlHash
  }

  ghost predicate NoticeKeys(t: map<NoticeId, Notice>) {
    && (forall a, b, source, key | HasExternalId(t, a, source, key) && HasExternalId(t, b, source, key) :: a == b)
    && (forall a, b, source, key | HasDedupHash(t, a, source, key) && HasDedupHash(t, b, source, key) :: a == b)
  }

  ghost predicate VersionKeys(t: map<VersionId, Version>) {
    && (forall a, b, notice, no | HasNo(t, a, notice, no) && HasNo(t, b, notice, no) :: a == b)
    && (forall a, b, notice, hash | HasContent(t, a, notice, hash) && HasContent(t, b, notice, hash) :: a == b)
  }

  ghost predicate FileKeys(db: Db) {
    && (forall a, b, source, key | HasFile(db.attachments, a, source, key) && HasFile(db.attachments, b, source, key) :: a == b)
    && (forall a, b, source, key | HasUrl(db.raws, a, source, key) && HasUrl(db.raws, b, source, key) :: a == b)
  }

  // ---------------------------------------------------------------- references

  /** A version belongs to a stored notice, was archived for the same source, and is flagged current
      only if its notice points at it. */
  ghost predicate VersionOk(db: Db, v: VersionId)
    requires v in db.versions
  {
    var version := db.versions[v];
    && version.notice in db.notices
    && (version.isCurrent ==> db.notices[version.notice].currentVersionId == Some(v))
    && (version.rawDocument.Some? ==>
          version.rawDocument.value in db.raws && db.raws[version.rawDocument.value].source == db.notices[version.notice].source)
  }

  /** A notice points at one of its own versions. */
  ghost predicate NoticeOk(db: Db, n: NoticeId)
    requires n in db.notices
  {
    var current := db.notices[n].currentVersionId;
    current.Some? ==> current.value in db.versions && db.versions[current.value].notice == n
  }

  /** An attachment hangs on a notice of its source and on a version of that same notice. */
  ghost predicate AttachmentOk(db: Db, a: AttachmentId)
    requires a in db.attachments
  {
    var attachment := db.attachments[a];
    && attachment.notice in db.notices && db.notices[attachment.notice].source == attachment.source
    && (attachment.version.Some? ==>
          attachment.version.value in db.versions && db.versions[attachment.version.value].notice == attachment.notice)
    && (attachment.rawDocument.Some? ==>
          attachment.rawDocument.value in db.raws && db.raws[attachment.rawDocument.value].source == attachment.source)
  }

  ghost predicate References(db: Db) {
    && (forall n | n in db.notices :: NoticeOk(db, n))
    && (forall v | v in db.versions :: VersionOk(db, v))
    && (forall a | a in db.attachments :: AttachmentOk(db, a))
  }

  ghost predicate Coherent(db: Db) {
    NoticeKeys(db.notices) && VersionKeys(db.versions) && FileKeys(db) && References(db)
  }

  // ---------------------------------------------------------------- resolving

  lemma FoundIsInSource(t: map<NoticeId, Notice>, norm: Normaliser, item: Item)
    ensures var found := Lookup(t, norm, item); found.Some? ==> found.value in t && t[found.value].source == item.source
  {
    hide HighlySimilar;
  }

  /** Resolving keeps the source and the version pointer of an old notice and starts a new one bare. */
  lemma ResolvedRow(t: map<NoticeId, Notice>, norm: Normaliser, item: Item, next: NoticeId)
    requires forall k | k in t :: k < next
    ensures var r := Resolve(t, norm, item, next);
            r.Resolved? ==>
              && r.row.source == item.source
              && (r.created <==> r.id !in t)
              && (r.created ==>
                    r.id == next && item.title.Some? && r.row == Applied(NewNotice(item), item) && r.row.currentVersionId == None)
              && (!r.created ==>
                    && r.row == Applied(t[r.id], item) && t[r.id].source == item.source
                    && r.row.currentVersionId == t[r.id].currentVersionId)
  {
    hide Lookup;
    FoundIsInSource(t, norm, item);
  }

  /** If the item carries an external id, no notice but the resolved one has it. */
  lemma {:induction false} ExternalIdIsResolvedFirst(t: map<NoticeId, Notice>, norm: Normaliser, item: Item, next: NoticeId, m: NoticeId)
    requires NoticeKeys(t) && item.externalId.Some? && HasExternalId(t, m, item.source, item.externalId.value)
    ensures var r := Resolve(t, norm, item, next); r.Resolved? ==> r.id == m
  {
    hide HighlySimilar;
    hide ByExternalId;
    var first := ByExternalId(t, item.source, item.externalId.value);
    assert first.Some? && HasExternalId(t, first.value, item.source, item.externalId.value);
  }

  lemma StampKeepsKeys(t: map<NoticeId, Notice>, norm: Normaliser, item: Item, next: NoticeId, row: Notice)
    requires NoticeKeys(t) && forall k | k in t :: k < next
    requires var r := Resolve(t, norm, item, next);
             r.Resolved? && !HashTaken(t, r.id, r.row) && row == r.row.(currentVersionId := row.currentVersionId)
    ensures NoticeKeys(t[Resolve(t, norm, item, next).id := row])
  {
    hide Resolve;
    var id := Resolve(t, norm, item, next).id;
    var t' := t[id := row];
    ResolvedRow(t, norm, item, next);
    forall a, source: SourceId, key | a != id && HasExternalId(t', a, source, key)
      ensures !HasExternalId(t', id, source, key)
    {
      assert HasExternalId(t, a, source, key);
      if item.externalId.Some? {
        if source == item.source && item.externalId.value == key {
          ExternalIdIsResolvedFirst(t, norm, item, next, a);
        }
      } else {
        assert HasExternalId(t', id, source, key) && id in t ==> HasExternalId(t, id, source, key);
      }
    }
    assert forall a, source: SourceId, key | a != id :: HasExternalId(t', a, source, key) ==> HasExternalId(t, a, source, key);
    assert forall a, source: SourceId, key | a != id :: HasDedupHash(t', a, source, key) ==> HasDedupHash(t, a, source, key);
    assert forall a, source: SourceId, key | a != id && HasDedupHash(t', a, source, key) :: !HasDedupHash(t', id, source, key);
  }

  // ---------------------------------------------------------------- versions

  lemma WithVersionFacts(t: map<VersionId, Version>, id: VersionId, row: Version)
    ensures var t' := WithVersion(t, id, row);
            && t'.Keys == t.Keys + {id} && t'[id] == row
            && forall v | v in t && v != id ::
              t'[v] == t[v].(isCurrent := t[v].isCurrent && !(row.isCurrent && t[v].notice == row.notice))
  {
  }

  lemma {:induction false} ChoiceFacts(t: map<VersionId, Version>, notice: NoticeId, item: Item)
    ensures var choice := ChooseVersion(t, notice, item);
            && (choice.OldVersion? ==>
                  && choice.id in t && t[choice.id].notice == notice
                  && (item.contentHash.Some? ==> t[choice.id].contentHash == item.contentHash.value))
            && (choice.NewVersion? ==>
                  && item.contentHash.Some?
                  && forall v :: !HasNo(t, v, notice, choice.no) && !HasContent(t, v, notice, item.contentHash.value))
  {
    hide MaxVersionNo;
    MaxIsHighest(t, notice);
  }

  lemma MaxIsHighest(t: map<VersionId, Version>, notice: NoticeId)
    ensures forall v | v in t && t[v].notice == notice :: t[v].versionNo <= MaxVersionNo(t, notice).GetOr(0)
    ensures forall v, no | HasNo(t, v, notice, no) :: no < MaxVersionNo(t, notice).GetOr(0) + 1
  {
    assert forall v | v in t && t[v].notice == notice :: v in VersionsOf(t, notice);
  }

  lemma VersionWriteKeepsKeys(t: map<VersionId, Version>, notice: NoticeId, item: Item, id: VersionId, row: Version)
    requires VersionKeys(t) && row.notice == notice
    requires var choice := ChooseVersion(t, notice, item);
             || (choice.OldVersion? && id == choice.id && row.versionNo == t[id].versionNo && row.contentHash == t[id].contentHash)
             || (choice.NewVersion? && id !in t && row.versionNo == choice.no && Some(row.contentHash) == item.contentHash)
    ensures VersionKeys(WithVersion(t, id, row))
  {
    hide ChooseVersion;
    ChoiceFacts(t, notice, item);
    WithVersionFacts(t, id, row);
    hide WithVersion;
    var t' := WithVersion(t, id, row);
    if id in t {
      assert forall v, n: NoticeId, no :: HasNo(t', v, n, no) <==> HasNo(t, v, n, no);
      assert forall v, n: NoticeId, hash :: HasContent(t', v, n, hash) <==> HasContent(t, v, n, hash);
    } else {
      assert forall v, n: NoticeId, no | v != id :: HasNo(t', v, n, no) <==> HasNo(t, v, n, no);
      assert forall v, n: NoticeId, hash | v != id :: HasContent(t', v, n, hash) <==> HasContent(t, v, n, hash);
    }
  }

  // ---------------------------------------------------------------- each write

  /** Notice rows may be restamped or added as long as sources and pointers stay. */
  ghost predicate Restamped(t: map<NoticeId, Notice>, t': map<NoticeId, Notice>) {
    forall n | n in t :: n in t' && t'[n].source == t[n].source && t'[n].currentVersionId == t[n].currentVersionId
  }

  lemma NoticeWriteKeepsCoherence(db: Db, norm: Normaliser, item: Item, ids: Ids)
    requires Coherent(db) && FreshIds(db, ids)
    ensures var effect := WriteNotice(db, norm, item, ids); effect.Committed? ==> Coherent(effect.db)
  {
    hide Resolve, HashTaken, AlreadyStored, NoticeKeys, VersionKeys, FileKeys, References, Applied, NewNotice, Counted, Upserted;
    var effect := WriteNotice(db, norm, item, ids);
    if effect.Committed? {
      SameFiles(db, effect.db);
    }
    if effect.Committed? && effect.write.NoticeWrite? {
      ResolvedRow(db.notices, norm, item, ids.notice);
      var r := Resolve(db.notices, norm, item, ids.notice);
      StampKeepsKeys(db.notices, norm, item, ids.notice, r.row);
      RestampKeepsReferences(db, effect.db);
    } else if effect.Committed? {
      RestampKeepsReferences(db, effect.db);
    }
  }

  /** New notices without a version, and restamped ones, disturb no reference. */
  lemma RestampKeepsReferences(db: Db, db': Db)
    requires References(db) && Restamped(db.notices, db'.notices)
    requires db'.versions == db.versions && db'.attachments == db.attachments && db'.raws == db.raws
    requires forall n | n in db'.notices && n !in db.notices :: db'.notices[n].currentVersionId.None?
    ensures References(db')
  {
    forall n | n in db'.notices ensures NoticeOk(db', n) {
      if n in db.notices { assert NoticeOk(db, n); }
    }
    forall v | v in db'.versions ensures VersionOk(db', v) { assert VersionOk(db, v); }
    forall a | a in db'.attachments ensures AttachmentOk(db', a) { assert AttachmentOk(db, a); }
  }

  /** The row a version write leaves behind. */
  lemma VersionEffect(db: Db, norm: Normaliser, item: Item, ids: Ids)
    returns (id: VersionId, row: Version, notice: Notice)
    requires FreshIds(db, ids) && WriteVersion(db, norm, item, ids).Committed?
    ensures var r := Resolve(db.notices, norm, item, ids.notice);
            var choice := ChooseVersion(db.versions, r.id, item);
            var db' := WriteVersion(db, norm, item, ids).db;
            && r.Resolved? && !choice.NoVersion? && !HashTaken(db.notices, r.id, r.row)
            && db' == db.(notices := db.notices[r.id := notice], versions := WithVersion(db.versions, id, row), jobs := db'.jobs)
            && notice == r.row.(currentVersionId := if row.isCurrent then Some(id) else r.row.currentVersionId)
            && row.notice == r.id && row.isCurrent == item.isCurrent && row.publishedAt == item.publishedAt
            && row.rawDocument == FindRaw(db.raws, item.source, item.rawUrlHash)
            && row == VersionRow(r.id, r.row.title, row.versionNo, row.contentHash, row.dedupKey, row.sourceDuplicateKey, item, row.rawDocument)
            && WriteVersion(db, norm, item, ids).write ==
               VersionWrite(r.id, item, item.job, choice.NewVersion?, item.contentHash, RequestedNo(item.versionNo), item.isCurrent)
            && (choice.OldVersion? ==>
                  && id == choice.id && id in db.versions && db.versions[id].notice == r.id
                  && row.versionNo == db.versions[id].versionNo && row.contentHash == db.versions[id].contentHash)
            && (choice.NewVersion? ==>
                  id == ids.version && id !in db.versions && row.versionNo == choice.no && Some(row.contentHash) == item.contentHash)
  {
    hide Resolve, HashTaken;
    var r := Resolve(db.notices, norm, item, ids.notice);
    var choice := ChooseVersion(db.versions, r.id, item);
    ChoiceFacts(db.versions, r.id, item);
    hide ChooseVersion, WithVersion, FindRaw;
    var raw := FindRaw(db.raws, item.source, item.rawUrlHash);
    id := if choice.OldVersion? then choice.id else ids.version;
    row := if choice.OldVersion?
           then var stored := db.versions[choice.id];
                VersionRow(r.id, r.row.title, stored.versionNo, stored.contentHash, stored.dedupKey, stored.sourceDuplicateKey, item, raw)
           else VersionRow(r.id, r.row.title, choice.no, item.contentHash.GetOr(""), None, None, item, raw);
    notice := if row.isCurrent then r.row.(currentVersionId := Some(id)) else r.row;
    assert forall k | k in db.versions :: k < ids.version;
  }

  /** What a version write does to the rows: one notice and one version change, and siblings of a
      current version lose their flag. */
  ghost predicate VersionChange(db: Db, db': Db, n: NoticeId, notice: Notice, id: VersionId, row: Version) {
    && db'.notices == db.notices[n := notice] && db'.attachments == db.attachments && db'.raws == db.raws
    && db'.versions.Keys == db.versions.Keys + {id} && db'.versions[id] == row && row.notice == n
    && (forall v | v in db.versions && v != id ::
          db'.versions[v] == db.versions[v].(isCurrent := db.versions[v].isCurrent && !(row.isCurrent && db.versions[v].notice == n)))
    && (n in db.notices ==> notice.source == db.notices[n].source)
    && (id in db.versions ==> db.versions[id].notice == n)
    && notice.currentVersionId ==
       (if row.isCurrent then Some(id) else if n in db.notices then db.notices[n].currentVersionId else None)
    && (row.rawDocument.Some? ==> row.rawDocument.value in db.raws && db.raws[row.rawDocument.value].source == notice.source)
  }

  lemma ChangedNoticeIsOk(db: Db, db': Db, n: NoticeId, notice: Notice, id: VersionId, row: Version, k: NoticeId)
    requires References(db) && VersionChange(db, db', n, notice, id, row) && k in db'.notices
    ensures NoticeOk(db', k)
  {
    if k in db.notices { assert NoticeOk(db, k); }
  }

  lemma ChangedVersionIsOk(db: Db, db': Db, n: NoticeId, notice: Notice, id: VersionId, row: Version, v: VersionId)
    requires References(db) && VersionChange(db, db', n, notice, id, row) && v in db'.versions
    ensures VersionOk(db', v)
  {
    if v in db.versions { assert VersionOk(db, v); }
  }

  lemma VersionWriteKeepsReferences(db: Db, db': Db, n: NoticeId, notice: Notice, id: VersionId, row: Version)
    requires References(db) && VersionChange(db, db', n, notice, id, row)
    ensures References(db')
  {
    forall k | k in db'.notices ensures NoticeOk(db', k) { ChangedNoticeIsOk(db, db', n, notice, id, row, k); }
    forall v | v in db'.versions ensures VersionOk(db', v) { ChangedVersionIsOk(db, db', n, notice, id, row, v); }
    hide NoticeOk, VersionOk;
    forall a | a in db'.attachments ensures AttachmentOk(db', a) { assert AttachmentOk(db, a); }
  }

  lemma VersionWriteKeepsCoherence(db: Db, norm: Normaliser, item: Item, ids: Ids)
    requires Coherent(db) && FreshIds(db, ids)
    ensures var effect := WriteVersion(db, norm, item, ids); effect.Committed? ==> Coherent(effect.db)
  {
    hide Resolve, HashTaken, WriteVersion, NoticeKeys, VersionKeys, FileKeys, References, WithVersion, ChooseVersion, Applied, NewNotice,
         FindRaw, VersionRow;
    var effect := WriteVersion(db, norm, item, ids);
    if effect.Committed? {
      var id, row, notice := VersionEffect(db, norm, item, ids);
      var r := Resolve(db.notices, norm, item, ids.notice);
      ResolvedRow(db.notices, norm, item, ids.notice);
      StampKeepsKeys(db.notices, norm, item, ids.notice, notice);
      VersionWriteKeepsKeys(db.versions, r.id, item, id, row);
      WithVersionFacts(db.versions, id, row);
      VersionWriteKeepsReferences(db, effect.db, r.id, notice, id, row);
      SameFiles(db, effect.db);
    }
  }

  lemma SameFiles(db: Db, db': Db)
    requires FileKeys(db) && db'.attachments == db.attachments && db'.raws == db.raws
    ensures FileKeys(db')
  {
  }

  /** What an attachment write does to the notices: one is stamped. */
  lemma AttachmentWriteStamps(db: Db, norm: Normaliser, item: Item, file: FileInfo, ids: Ids)
    requires FreshIds(db, ids) && WriteAttachment(db, norm, item, file, ids).Committed?
    ensures var effect := WriteAttachment(db, norm, item, file, ids);
            var r := Resolve(db.notices, norm, item, ids.notice);
            && r.Resolved? && !HashTaken(db.notices, r.id, r.row)
            && effect.db.notices == db.notices[r.id := r.row]
            && effect.db.versions == db.versions && effect.db.raws == db.raws
            && Restamped(db.notices, effect.db.notices)
            && (r.id !in db.notices ==> r.row.currentVersionId.None?)
            && effect.write.AttachmentWrite? && effect.write.notice == r.id && effect.write.item == item
  {
    hide Resolve, HashTaken, AttachedVersion, FindAttachment, FindRaw, Counted, Upserted, NewNotice, Applied;
    ResolvedRow(db.notices, norm, item, ids.notice);
  }

  lemma AttachmentWriteKeepsCoherence(db: Db, norm: Normaliser, item: Item, file: FileInfo, ids: Ids)
    requires Coherent(db) && FreshIds(db, ids)
    ensures var effect := WriteAttachment(db, norm, item, file, ids); effect.Committed? ==> Coherent(effect.db)
  {
    hide Resolve, HashTaken, NoticeKeys, VersionKeys, FileKeys, References, ByVersionNo, FindAttachment, FindRaw, Applied, NewNotice,
         Counted, Upserted;
    var effect := WriteAttachment(db, norm, item, file, ids);
    if effect.Committed? {
      var r := Resolve(db.notices, norm, item, ids.notice);
      ResolvedRow(db.notices, norm, item, ids.notice);
      StampKeepsKeys(db.notices, norm, item, ids.notice, r.row);
      var stamped := db.(notices := db.notices[r.id := r.row]);
      RestampKeepsReferences(db, stamped);
      if file.urlHash.None? || file.fileUrl.None? || file.fileName.None? {
        SameFiles(db, effect.db);
      } else {
        var id := FindAttachment(db.attachments, item.source, file.urlHash.value).GetOr(ids.attachment);
        var row := effect.db.attachments[id];
        FoundFileIsTheOnlyOne(db, item.source, file.urlHash.value);
        FileChangeKeepsKeys(db, effect.db, id, row);
        AttachedVersionIsOwn(stamped, r.id, r.row, file.versionNo);
        AttachmentChangeKeepsReferences(stamped, effect.db, id, row);
      }
    }
  }

  lemma FoundFileIsTheOnlyOne(db: Db, source: SourceId, key: Key)
    requires FileKeys(db)
    ensures var found := FindAttachment(db.attachments, source, key);
            forall a: AttachmentId | HasFile(db.attachments, a, source, key) :: found == Some(a)
  {
    hide FindAttachment;
    var found := FindAttachment(db.attachments, source, key);
    assert found.Some? ==> HasFile(db.attachments, found.value, source, key);
  }

  lemma FoundUrlIsTheOnlyOne(db: Db, source: SourceId, key: Key)
    requires FileKeys(db)
    ensures var found := FindRaw(db.raws, source, Some(key));
            forall r: RawId | HasUrl(db.raws, r, source, key) :: found == Some(r)
  {
    hide FindRaw;
    var found := FindRaw(db.raws, source, Some(key));
    assert found.Some? ==> HasUrl(db.raws, found.value, source, key);
  }

  lemma FileChangeKeepsKeys(db: Db, db': Db, id: AttachmentId, row: Attachment)
    requires FileKeys(db) && db'.raws == db.raws && db'.attachments == db.attachments[id := row]
    requires forall a | a != id :: !HasFile(db.attachments, a, row.source, row.urlHash)
    ensures FileKeys(db')
  {
    assert forall a, source: SourceId, key | a != id :: HasFile(db'.attachments, a, source, key) <==> HasFile(db.attachments, a, source, key);
  }

  lemma AttachedVersionIsOwn(db: Db, n: NoticeId, row: Notice, no: Option<int>)
    requires References(db) && n in db.notices && db.notices[n] == row
    ensures var v := AttachedVersion(db.versions, n, row, no);
            v.Some? ==> v.value in db.versions && db.versions[v.value].notice == n
  {
    assert NoticeOk(db, n);
  }

  lemma AttachmentChangeKeepsReferences(db: Db, db': Db, id: AttachmentId, row: Attachment)
    requires References(db) && db'.notices == db.notices && db'.versions == db.versions && db'.raws == db.raws
    requires db'.attachments == db.attachments[id := row] && AttachmentOk(db', id)
    ensures References(db')
  {
    forall k | k in db'.notices ensures NoticeOk(db', k) { assert NoticeOk(db, k); }
    forall v | v in db'.versions ensures VersionOk(db', v) { assert VersionOk(db, v); }
    forall a | a in db'.attachments ensures AttachmentOk(db', a) {
      if a != id { assert AttachmentOk(db, a); }
    }
  }

  lemma RawWriteKeepsCoherence(db: Db, item: RawItem, ids: Ids)
    requires Coherent(db) && FreshIds(db, ids)
    ensures var effect := WriteRaw(db, item, ids); effect.Committed? ==> Coherent(effect.db)
  {
    hide NoticeKeys, VersionKeys, FindRaw, DocumentWithContent;
    var effect := WriteRaw(db, item, ids);
    if effect.Committed? {
      var db' := effect.db;
      var id := FindRaw(db.raws, item.source, item.urlHash).GetOr(ids.raw);
      assert id !in db.raws || db.raws[id].source == item.source;
      assert forall r, source: SourceId, key | r != id :: HasUrl(db'.raws, r, source, key) <==> HasUrl(db.raws, r, source, key);
      FoundUrlIsTheOnlyOne(db, item.source, item.urlHash.value);
      assert forall r | r != id :: !HasUrl(db.raws, r, item.source, item.urlHash.value);
      RawChangeKeepsReferences(db, db', id);
    }
  }

  lemma RawChangeKeepsReferences(db: Db, db': Db, id: RawId)
    requires References(db) && db'.notices == db.notices && db'.versions == db.versions && db'.attachments == db.attachments
    requires forall r | r in db.raws :: r in db'.raws && db'.raws[r].source == db.raws[r].source
    ensures References(db')
  {
    forall k | k in db'.notices ensures NoticeOk(db', k) { assert NoticeOk(db, k); }
    forall v | v in db'.versions ensures VersionOk(db', v) { assert VersionOk(db, v); }
    forall a | a in db'.attachments ensures AttachmentOk(db', a) { assert AttachmentOk(db, a); }
  }

  lemma {:induction false} StepKeepsCoherence(s: Store, norm: Normaliser, e: Event)
    requires Coherent(s.db)
    ensures Coherent(Next(s, norm, e).db)
  {
    hide Coherent, WriteNotice, WriteVersion, WriteAttachment, WriteRaw;
    if FreshEvent(s.db, e) {
      match e
      case NoticeItem(item, ids) => NoticeWriteKeepsCoherence(s.db, norm, item, ids);
      case VersionItem(item, ids) => VersionWriteKeepsCoherence(s.db, norm, item, ids);
      case AttachmentItem(item, file, ids) => AttachmentWriteKeepsCoherence(s.db, norm, item, file, ids);
      case RawDocumentItem(raw, ids) => RawWriteKeepsCoherence(s.db, raw, ids);
      case ErrorItem(job) => ErrorWriteKeepsCoherence(s.db, job);
    }
  }

  lemma ErrorWriteKeepsCoherence(db: Db, job: Option<JobId>)
    requires Coherent(db)
    ensures var effect := WriteError(db, job); effect.Committed? ==> Coherent(effect.db)
  {
    hide NoticeKeys, VersionKeys;
    var effect := WriteError(db, job);
    if effect.Committed? {
      RestampKeepsReferences(db, effect.db);
    }
  }

  /** After any run: external ids, dedup hashes, file urls and document urls are unique per source,
      contents and version numbers per notice; and every reference stays inside its notice and source. */
  lemma {:induction false} StoreStaysCoherent(jobs: set<JobId>, norm: Normaliser, events: seq<Event>)
    ensures Coherent(Run(Empty(jobs), norm, events).db)
  {
    hide Next;
    if events == [] {
      assert Run(Empty(jobs), norm, events) == Empty(jobs);
    } else {
      var init := events[..|events| - 1];
      StoreStaysCoherent(jobs, norm, init);
      StepKeepsCoherence(Run(Empty(jobs), norm, init), norm, events[|events| - 1]);
    }
  }
}
