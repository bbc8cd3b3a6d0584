/** What writing the items of a parsed notice again changes, and when that is nothing but counters. */
module NoticeReplay {
  import opened Options
  import opened CrawlJobs
  import opened NoticeTables
  import opened NoticeCoherence

  predicate HasAKey(item: Item) {
    item.externalId.Some? || item.sourceDuplicateKey.Some? || item.dedupKey.Some? || item.dedupHash.Some?
  }

  /** What is stamped on the resolved notice is found again by every lookup stage that runs. */
  lemma {:induction false} StampedKeysAreFound(t: map<NoticeId, Notice>, norm: Normaliser, item: Item, next: NoticeId, row: Notice)
    requires (forall k | k in t :: k < next) && HasAKey(item)
    requires var r := Resolve(t, norm, item, next);
             r.Resolved? && row == r.row.(currentVersionId := row.currentVersionId)
    ensures var id := Resolve(t, norm, item, next).id;
            Lookup(t[id := row], norm, item) == Some(id)
  {
    hide ByExternalId, BySourceDuplicateKey, ByDedupKey, ByDedupHash, HighlySimilar, BySimilarity;
    var id := Resolve(t, norm, item, next).id;
    var t' := t[id := row];
    ResolvedRow(t, norm, item, next);
    hide Resolve;
    if item.externalId.Some? {
      assert t'[id].externalId == item.externalId;
      assert ByExternalId(t', item.source, item.externalId.value) == Some(id);
    } else if item.sourceDuplicateKey.Some? {
      assert t'[id].sourceDuplicateKey == item.sourceDuplicateKey;
      assert BySourceDuplicateKey(t', item.source, item.sourceDuplicateKey.value) == Some(id);
    } else if item.dedupKey.Some? {
      assert t'[id].dedupKey == item.dedupKey;
      assert ByDedupKey(t', item.source, item.dedupKey.value) == Some(id);
    } else {
      assert t'[id].dedupHash == item.dedupHash;
      assert ByDedupHash(t', item.source, item.dedupHash.value) == Some(id);
    }
  }

  lemma StampingTwiceIsStampingOnce(n: Notice, item: Item)
    ensures Applied(Applied(n, item), item) == Applied(n, item)
    ensures forall v :: Applied(Applied(n, item).(currentVersionId := v), item) == Applied(n, item).(currentVersionId := v)
  {
  }

  /** Resolving again finds the stamped notice and stamps nothing new on it. */
  lemma ResolvedAgain(t: map<NoticeId, Notice>, norm: Normaliser, item: Item, next: NoticeId, row: Notice, next': NoticeId)
    requires (forall k | k in t :: k < next) && HasAKey(item)
    requires var r := Resolve(t, norm, item, next);
             r.Resolved? && !HashTaken(t, r.id, r.row) && row == r.row.(currentVersionId := row.currentVersionId)
    ensures var id := Resolve(t, norm, item, next).id;
            && Resolve(t[id := row], norm, item, next') == Resolved(id, row, false)
            && !HashTaken(t[id := row], id, row)
  {
    hide Lookup;
    var r := Resolve(t, norm, item, next);
    StampedKeysAreFound(t, norm, item, next, row);
    StampingTwiceIsStampingOnce(if r.created then NewNotice(item) else t[r.id], item);
    hide Applied, NewNotice;
    var t' := t[r.id := row];
    forall n | n in t' && n != r.id ensures !(t'[n].source == row.source && t'[n].dedupHash == row.dedupHash && row.dedupHash.Some?) {
      assert n in t;
    }
  }

  /** The content written is found again at the row it was written to. */
  lemma ChosenAgain(t: map<VersionId, Version>, n: NoticeId, item: Item, id: VersionId, row: Version)
    requires item.contentHash.Some? && row.notice == n && Some(row.contentHash) == item.contentHash
    requires var choice := ChooseVersion(t, n, item);
             (choice.OldVersion? && id == choice.id) || (choice.NewVersion? && id !in t)
    ensures ChooseVersion(WithVersion(t, id, row), n, item) == OldVersion(id)
  {
    hide ByContentHash, ByVersionNo, MaxVersionNo;
    WithVersionFacts(t, id, row);
    hide WithVersion;
    assert ByContentHash(WithVersion(t, id, row), n, item.contentHash.value) == Some(id);
  }

  lemma WrittenTwiceIsWrittenOnce(t: map<VersionId, Version>, id: VersionId, row: Version)
    ensures WithVersion(WithVersion(t, id, row), id, row) == WithVersion(t, id, row)
  {
  }

  /** Equal in everything but the job counters. */
  predicate SameTables(a: Db, b: Db) {
    b == a.(jobs := b.jobs)
  }

  /** A version item that names its content and at least one identity key. */
  predicate Identified(item: Item) {
    item.contentHash.Some? && (item.dedupKey.Some? || item.sourceDuplicateKey.Some?)
  }

  /** Repeating a committed version write is a commit that only counts one more duplicate. */
  lemma {:induction false} VersionReplay(db: Db, norm: Normaliser, item: Item, ids: Ids, db1: Db, ids': Ids)
    requires FreshIds(db, ids) && Identified(item) && WriteVersion(db, norm, item, ids).Committed?
    requires SameTables(WriteVersion(db, norm, item, ids).db, db1)
    ensures var again := WriteVersion(db1, norm, item, ids');
            again.Committed? && again.db == db1.(jobs := Counted(db1.jobs, item.job, Upserted(false)))
  {
    hide Resolve, HashTaken, ChooseVersion, WithVersion, FindRaw, Counted, Upserted;
    var id, row, notice := VersionEffect(db, norm, item, ids);
    var r := Resolve(db.notices, norm, item, ids.notice);
    ChoiceFacts(db.versions, r.id, item);
    ResolvedAgain(db.notices, norm, item, ids.notice, notice, ids'.notice);
    ChosenAgain(db.versions, r.id, item, id, row);
    WrittenTwiceIsWrittenOnce(db.versions, id, row);
    WithVersionFacts(db.versions, id, row);
    assert db1.notices == db.notices[r.id := notice] && db1.versions == WithVersion(db.versions, id, row);
    assert db1.notices[r.id := notice] == db1.notices;
    assert db1.versions[id] == row && notice.title == r.row.title;
    hide WriteVersion;
    RewrittenVersion(db1, norm, item, ids', r.id, notice, id, row);
  }

  /** Rewriting a stored version from the same item, on a notice that stamping turns into `notice`. */
  lemma RewrittenVersion(db: Db, norm: Normaliser, item: Item, ids: Ids, n: NoticeId, notice: Notice, id: VersionId, row: Version)
    requires n in db.notices && id in db.versions && db.versions[id] == row
    requires var r := Resolve(db.notices, norm, item, ids.notice);
             && r.Resolved? && r.id == n && !HashTaken(db.notices, n, r.row)
             && notice == r.row.(currentVersionId := if row.isCurrent then Some(id) else r.row.currentVersionId)
    requires ChooseVersion(db.versions, n, item) == OldVersion(id) && WithVersion(db.versions, id, row) == db.versions
    requires row == VersionRow(n, notice.title, row.versionNo, row.contentHash, row.dedupKey, row.sourceDuplicateKey, item,
                               FindRaw(db.raws, item.source, item.rawUrlHash))
    ensures var again := WriteVersion(db, norm, item, ids);
            && again.Committed?
            && again.db == db.(notices := db.notices[n := notice], jobs := Counted(db.jobs, item.job, Upserted(false)))
  {
    hide Resolve, HashTaken, ChooseVersion, WithVersion, FindRaw, Counted, Upserted;
  }

  // ---------------------------------------------------------------- when a notice item is suppressed

  /** The item and the version row agree on a key that the suppression looks at. */
  predicate SharesAKey(a: Item, v: Version) {
    var key := a.dedupKey.Or(a.sourceDuplicateKey);
    || (key.Some? && v.dedupKey == key)
    || (a.sourceDuplicateKey.Some? && v.sourceDuplicateKey == a.sourceDuplicateKey)
  }

  /** The same, read off the notice item and the version item before either is written. */
  predicate ItemsShareAKey(a: Item, b: Item) {
    var key := a.dedupKey.Or(a.sourceDuplicateKey);
    || (key.Some? && key == b.dedupKey.Or(b.sourceDuplicateKey))
    || (a.sourceDuplicateKey.Some? && a.sourceDuplicateKey == b.sourceDuplicateKey)
  }

  /** The two items of one parsed notice: one source and one content.  Their keys may differ. */
  predicate SameContent(a: Item, b: Item) {
    a.source == b.source && a.contentHash == b.contentHash
  }

  /** The row a version write goes to. */
  function WrittenVersion(db: Db, norm: Normaliser, item: Item, ids: Ids): VersionId
    requires WriteVersion(db, norm, item, ids).Committed?
  {
    var choice := ChooseVersion(db.versions, Resolve(db.notices, norm, item, ids.notice).id, item);
    if choice.OldVersion? then choice.id else ids.version
  }

  /** Another version of the source holds the item's content under one of its keys. */
  ghost predicate HeldElsewhere(db: Db, a: Item, id: VersionId) {
    exists v | v in db.versions && v != id :: StoredUnder(db, db.versions[v], a, a.dedupKey.Or(a.sourceDuplicateKey))
  }

  lemma StoredRow(db: Db, norm: Normaliser, b: Item, ids: Ids)
    requires FreshIds(db, ids) && Identified(b) && WriteVersion(db, norm, b, ids).Committed?
    ensures var db' := WriteVersion(db, norm, b, ids).db;
            var id := WrittenVersion(db, norm, b, ids);
            && id in db'.versions && db'.versions[id].notice in db'.notices
            && db'.notices[db'.versions[id].notice].source == b.source
            && Some(db'.versions[id].contentHash) == b.contentHash
            && db'.versions[id].dedupKey == b.dedupKey.Or(b.sourceDuplicateKey)
            && (b.sourceDuplicateKey.Some? ==> db'.versions[id].sourceDuplicateKey == b.sourceDuplicateKey)
  {
    hide Resolve, HashTaken, ChooseVersion, WithVersion, FindRaw, Counted, WriteVersion, Applied, NewNotice;
    var id, row, notice := VersionEffect(db, norm, b, ids);
    ChoiceFacts(db.versions, row.notice, b);
    ResolvedRow(db.notices, norm, b, ids.notice);
    WithVersionFacts(db.versions, id, row);
  }

  /** After a version item is stored, a notice item with the same content is suppressed exactly if it
      shares a key with the stored row or with another version of the source; of the row's keys those
      the version item brought decide. */
  lemma {:induction false} SuppressedExactly(db: Db, norm: Normaliser, a: Item, b: Item, ids: Ids, db1: Db, ids': Ids)
    requires FreshIds(db, ids) && Identified(b) && SameContent(a, b) && WriteVersion(db, norm, b, ids).Committed?
    requires SameTables(WriteVersion(db, norm, b, ids).db, db1)
    ensures var again := WriteNotice(db1, norm, a, ids');
            var id := WrittenVersion(db, norm, b, ids);
            && id in db1.versions
            && (again.Committed? && again.write.SuppressedWrite? <==> SharesAKey(a, db1.versions[id]) || HeldElsewhere(db1, a, id))
            && (ItemsShareAKey(a, b) ==> SharesAKey(a, db1.versions[id]))
            && (b.sourceDuplicateKey.Some? ==> (SharesAKey(a, db1.versions[id]) <==> ItemsShareAKey(a, b)))
  {
    StoredRow(db, norm, b, ids);
    hide Resolve, HashTaken, WriteVersion, WrittenVersion, Counted, Upserted;
    var id := WrittenVersion(db, norm, b, ids);
    var key := a.dedupKey.Or(a.sourceDuplicateKey);
    assert StoredUnder(db1, db1.versions[id], a, key) <==> SharesAKey(a, db1.versions[id]);
    assert AlreadyStored(db1, a) <==> SharesAKey(a, db1.versions[id]) || HeldElsewhere(db1, a, id);
  }

  /** Once its version is stored, a notice item that shares a key with the version item is suppressed. */
  lemma {:induction false} NoticeReplay(db: Db, norm: Normaliser, a: Item, b: Item, ids: Ids, db1: Db, ids': Ids)
    requires FreshIds(db, ids) && Identified(b) && SameContent(a, b) && WriteVersion(db, norm, b, ids).Committed?
    requires SameTables(WriteVersion(db, norm, b, ids).db, db1) && ItemsShareAKey(a, b)
    ensures var again := WriteNotice(db1, norm, a, ids');
            && again.Committed? && again.write == SuppressedWrite(a.job)
            && again.db == db1.(jobs := Counted(db1.jobs, a.job, NO_COUNTS.(deduplicatedCount := 1, duplicatesSuppressed := 1)))
  {
    hide Resolve, HashTaken, WriteVersion, WrittenVersion, Counted, HeldElsewhere;
    SuppressedExactly(db, norm, a, b, ids, db1, ids');
  }

  /** The events that write one of the two items again. */
  predicate Replays(events: seq<Event>, a: Item, b: Item) {
    forall e | e in events :: (e.NoticeItem? && e.item == a) || (e.VersionItem? && e.item == b)
  }

  /** After the version of a parsed notice is stored, writing its items again, in any order and any
      number of times, leaves every table as it was, provided the items share a key. */
  lemma {:induction false} ReplayIsANoOp(s: Store, norm: Normaliser, a: Item, b: Item, ids: Ids, events: seq<Event>)
    requires FreshIds(s.db, ids) && Identified(b) && SameContent(a, b) && ItemsShareAKey(a, b)
    requires WriteVersion(s.db, norm, b, ids).Committed? && Replays(events, a, b)
    ensures var stored := Next(s, norm, VersionItem(b, ids));
            SameTables(stored.db, Run(stored, norm, events).db)
  {
    hide WriteVersion, WriteNotice, ItemsShareAKey;
    var stored := Next(s, norm, VersionItem(b, ids));
    if events != [] {
      var init := events[..|events| - 1];
      var e := events[|events| - 1];
      assert e in events && forall i | i in init :: i in events;
      ReplayIsANoOp(s, norm, a, b, ids, init);
      var s1 := Run(stored, norm, init);
      if FreshEvent(s1.db, e) {
        if e.NoticeItem? && e.item == a {
          NoticeReplay(s.db, norm, a, b, ids, s1.db, e.ids);
        } else {
          VersionReplay(s.db, norm, b, ids, s1.db, e.ids);
        }
      }
    }
  }

  // ---------------------------------------------------------------- pairs that share no key

  /** The notice is as the item left it. */
  predicate Stamped(n: Notice, item: Item) { Applied(n, item) == n }

  /** Two items of one notice written in turn, twice, leave what writing them once leaves. */
  lemma StampingInTurns(n: Notice, a: Item, b: Item, current: Option<VersionId>)
    requires Stamped(n, a)
    ensures var once := Applied(n, b).(currentVersionId := current);
            Applied(Applied(once, a), b) == once
  {
  }

  /** Restamping n with another item of the same dedup hash does not change what an item that was
      resolved to n is resolved to. */
  lemma {:induction false} StillFound(t: map<NoticeId, Notice>, norm: Normaliser, a: Item, b: Item, n: NoticeId, row: Notice)
    requires n in t && t[n].source == b.source && Lookup(t, norm, b) == Some(n) && Stamped(t[n], a)
    requires b.dedupHash.Some? && a.dedupHash == b.dedupHash
    requires exists current :: row == Applied(Applied(t[n], b).(currentVersionId := current), a)
    ensures Lookup(t[n := row], norm, b) == Some(n)
  {
    hide ByExternalId, BySourceDuplicateKey, ByDedupKey, ByDedupHash, BySimilarity;
    var t' := t[n := row];
    assert row.source == t[n].source && row.dedupHash == b.dedupHash;
    assert row.externalId == t[n].externalId || row.externalId == b.externalId;
    assert row.sourceDuplicateKey == t[n].sourceDuplicateKey || row.sourceDuplicateKey == b.sourceDuplicateKey;
    assert b.dedupKey.Some? ==> row.dedupKey == t[n].dedupKey || row.dedupKey == b.dedupKey;
    hide Applied, Stamped;
    assert t'[n] == row && forall m | m in t && m != n :: t'[m] == t[m];
    assert b.externalId.Some? && ByExternalId(t, b.source, b.externalId.value) == Some(n) ==>
        ByExternalId(t', b.source, b.externalId.value) == Some(n);
    assert ByDedupHash(t', b.source, b.dedupHash.value).Some?;
  }

  /** The version item was written to a notice that carries the notice item's stamp. */
  ghost predicate PairWritten(db: Db, norm: Normaliser, a: Item, b: Item, ids: Ids) {
    && FreshIds(db, ids) && WriteVersion(db, norm, b, ids).Committed?
    && b.contentHash.Some? && SameContent(a, b) && b.dedupHash.Some? && a.dedupHash == b.dedupHash
    && Lookup(db.notices, norm, b).Some?
    && Lookup(db.notices, norm, b).value in db.notices && Stamped(db.notices[Lookup(db.notices, norm, b).value], a)
  }

  /** The rows the pair left behind. */
  lemma PairRows(db: Db, norm: Normaliser, a: Item, b: Item, ids: Ids) returns (n: NoticeId, id: VersionId, row: Version, notice: Notice)
    requires PairWritten(db, norm, a, b, ids)
    ensures var db1 := WriteVersion(db, norm, b, ids).db;
            && Lookup(db.notices, norm, b) == Some(n) && n in db.notices && db.notices[n].source == b.source && Stamped(db.notices[n], a)
            && db1.notices == db.notices[n := notice] && db1.versions == WithVersion(db.versions, id, row)
            && db1 == db.(notices := db1.notices, versions := db1.versions, jobs := db1.jobs)
            && notice == Applied(db.notices[n], b).(currentVersionId := notice.currentVersionId)
            && notice == notice.(currentVersionId := if row.isCurrent then Some(id) else notice.currentVersionId)
            && !HashTaken(db.notices, n, notice)
            && ChooseVersion(db1.versions, n, b) == OldVersion(id) && id in db1.versions && db1.versions[id] == row
            && row == VersionRow(n, notice.title, row.versionNo, row.contentHash, row.dedupKey, row.sourceDuplicateKey, b,
                                 FindRaw(db.raws, b.source, b.rawUrlHash))
  {
    hide HashTaken, ChooseVersion, WithVersion, FindRaw, WriteVersion, Applied, NewNotice, VersionRow, Lookup;
    id, row, notice := VersionEffect(db, norm, b, ids);
    n := Resolve(db.notices, norm, b, ids.notice).id;
    ResolvedRow(db.notices, norm, b, ids.notice);
    ChoiceFacts(db.versions, n, b);
    ChosenAgain(db.versions, n, b, id, row);
    WithVersionFacts(db.versions, id, row);
    SameHashTaken(db.notices, n, Resolve(db.notices, norm, b, ids.notice).row, notice, notice);
    assert notice.title == Resolve(db.notices, norm, b, ids.notice).row.title;
  }

  /** Only the source and the dedup hash of a row matter for the index, and only the other rows. */
  lemma SameHashTaken(t: map<NoticeId, Notice>, n: NoticeId, row: Notice, row': Notice, other: Notice)
    requires row.source == row'.source && row.dedupHash == row'.dedupHash
    ensures HashTaken(t, n, row) == HashTaken(t, n, row') == HashTaken(t[n := other], n, row')
  {
    var t' := t[n := other];
    assert forall m | m != n :: m in t <==> m in t';
    assert forall m | m in t && m != n :: t'[m] == t[m];
  }

  /** The notice item written again is suppressed, or restamps the notice of the pair and nothing else. */
  lemma {:induction false} NoticeOfPairAgain(db1: Db, norm: Normaliser, a: Item, n: NoticeId, ids': Ids)
    requires Lookup(db1.notices, norm, a) == Some(n) && n in db1.notices && db1.notices[n].source == a.source
    requires !HashTaken(db1.notices, n, Applied(db1.notices[n], a))
    ensures var again := WriteNotice(db1, norm, a, ids');
            && again.Committed?
            && (again.write.SuppressedWrite? <==> AlreadyStored(db1, a))
            && again.db == db1.(notices := if AlreadyStored(db1, a) then db1.notices else db1.notices[n := Applied(db1.notices[n], a)],
                                jobs := again.db.jobs)
  {
    hide Lookup, HashTaken, AlreadyStored, Applied, Counted, Upserted;
  }

  lemma StampedAsResolved(t: map<NoticeId, Notice>, norm: Normaliser, b: Item, next: NoticeId, n: NoticeId, row: Notice)
    requires (forall k | k in t :: k < next) && n in t && Lookup(t, norm, b) == Some(n) && b.dedupHash.Some?
    requires row == Applied(t[n], b).(currentVersionId := row.currentVersionId)
    ensures Lookup(t[n := row], norm, b) == Some(n)
  {
    hide Lookup, Applied;
    StampedKeysAreFound(t, norm, b, next, row);
  }

  /** Writing both items again, the notice item first, restores every table, whether or not the notice
      item is suppressed, provided it is still resolved to the notice of the pair. */
  lemma {:induction false} PairReplayRestores(db: Db, norm: Normaliser, a: Item, b: Item, ids: Ids, db1: Db, ids': Ids, ids'': Ids)
    requires PairWritten(db, norm, a, b, ids) && SameTables(WriteVersion(db, norm, b, ids).db, db1)
    requires Lookup(db1.notices, norm, a) == Lookup(db.notices, norm, b)
    ensures var once := WriteNotice(db1, norm, a, ids');
            && once.Committed? && once.db.notices.Keys == db1.notices.Keys
            && once.db == db1.(notices := once.db.notices, jobs := once.db.jobs)
            && var twice := WriteVersion(once.db, norm, b, ids'');
               twice.Committed? && SameTables(db1, twice.db)
  {
    hide HashTaken, ChooseVersion, WithVersion, FindRaw, WriteVersion, WriteNotice, NewNotice, VersionRow, Lookup, AlreadyStored, Counted, Upserted;
    var n, id, row, notice := PairRows(db, norm, a, b, ids);
    var again := Applied(notice, a);
    StampingInTurns(db.notices[n], a, b, notice.currentVersionId);
    assert again.dedupHash == notice.dedupHash && again.source == notice.source && again.currentVersionId == notice.currentVersionId;
    SameHashTaken(db.notices, n, notice, again, notice);
    assert db1.notices[n] == notice && notice.source == b.source;
    NoticeOfPairAgain(db1, norm, a, n, ids');
    var db2 := WriteNotice(db1, norm, a, ids').db;
    WrittenTwiceIsWrittenOnce(db.versions, id, row);
    StampingTwiceIsStampingOnce(db.notices[n], b);
    if AlreadyStored(db1, a) {
      assert db2.notices == db.notices[n := notice];
      StampedAsResolved(db.notices, norm, b, ids.notice, n, notice);
      SameHashTaken(db.notices, n, notice, notice, notice);
    } else {
      assert db2.notices == db.notices[n := again];
      StillFound(db.notices, norm, a, b, n, again);
      SameHashTaken(db.notices, n, notice, notice, again);
    }
    assert Applied(db2.notices[n], b) == notice.(currentVersionId := notice.currentVersionId);
    assert Resolve(db2.notices, norm, b, ids''.notice) == Resolved(n, notice, false);
    hide Resolve, Applied;
    RewrittenVersion(db2, norm, b, ids'', n, notice, id, row);
    assert db2.notices[n := notice] == db1.notices;
  }

  /** The keys that item normalisation always computes. */
  predicate HasBothKeys(item: Item) {
    item.dedupKey.Some? && item.sourceDuplicateKey.Some?
  }

  /** The notice item alone, written again after its pair, leaves every table as it was exactly if it
      shares a key with the version item or another version of the source holds its content under one
      of its keys; otherwise it restamps the notice with its own keys. */
  lemma {:induction false} NoticeReplayExactly(db: Db, norm: Normaliser, a: Item, b: Item, ids: Ids, db1: Db, ids': Ids)
    requires PairWritten(db, norm, a, b, ids) && SameTables(WriteVersion(db, norm, b, ids).db, db1)
    requires HasBothKeys(a) && HasBothKeys(b) && Lookup(db1.notices, norm, a) == Lookup(db.notices, norm, b)
    ensures var again := WriteNotice(db1, norm, a, ids');
            && again.Committed?
            && (SameTables(db1, again.db) <==> ItemsShareAKey(a, b) || HeldElsewhere(db1, a, WrittenVersion(db, norm, b, ids)))
            && (again.write.SuppressedWrite? <==> SameTables(db1, again.db))
  {
    SuppressedExactly(db, norm, a, b, ids, db1, ids');
    hide HashTaken, ChooseVersion, WithVersion, FindRaw, WriteVersion, WriteNotice, NewNotice, VersionRow, Lookup, AlreadyStored, Counted, Upserted,
         WrittenVersion, HeldElsewhere;
    var n, id, row, notice := PairRows(db, norm, a, b, ids);
    var again := Applied(notice, a);
    assert again.dedupHash == notice.dedupHash && again.source == notice.source;
    SameHashTaken(db.notices, n, notice, again, notice);
    assert db1.notices[n] == notice && notice.source == b.source;
    NoticeOfPairAgain(db1, norm, a, n, ids');
    assert again.dedupKey == a.dedupKey && notice.dedupKey == b.dedupKey;
    if a.dedupKey != b.dedupKey {
      assert db1.notices[n := again][n] != db1.notices[n];
    }
  }

  /** Any number of repetitions of the pair. */
  predicate Pairs(events: seq<Event>, a: Item, b: Item) {
    var k := |events| - 2;
    events == [] ||
    (k >= 0 && events[k].NoticeItem? && events[k].item == a && events[k + 1].VersionItem? && events[k + 1].item == b
     && Pairs(events[..k], a, b))
  }

  /** Writing the notice item and then the version item of a parsed notice again, any number of times,
      leaves every table as it was; no shared key is needed, only that the notice item is still
      resolved to the notice of the pair. */
  lemma {:induction false} PairReplayIsANoOp(s: Store, norm: Normaliser, a: Item, b: Item, ids: Ids, events: seq<Event>)
    requires PairWritten(s.db, norm, a, b, ids) && Pairs(events, a, b)
    requires var stored := Next(s, norm, VersionItem(b, ids));
             && Lookup(stored.db.notices, norm, a) == Lookup(s.db.notices, norm, b)
             && forall e | e in events :: FreshEvent(stored.db, e)
    ensures var stored := Next(s, norm, VersionItem(b, ids));
            SameTables(stored.db, Run(stored, norm, events).db)
    decreases |events|
  {
    hide WriteVersion, WriteNotice, Lookup, Stamped;
    var stored := Next(s, norm, VersionItem(b, ids));
    if events != [] {
      var k := |events| - 2;
      var before, first, second := events[..k], events[k], events[k + 1];
      assert first in events && second in events && forall e | e in before :: e in events;
      PairReplayIsANoOp(s, norm, a, b, ids, before);
      var s1 := Run(stored, norm, before);
      PairReplayRestores(s.db, norm, a, b, ids, s1.db, first.ids, second.ids);
      RunOfTwo(stored, norm, events);
      SameKeysSameFreshness(stored.db, s1.db, first.ids);
      SameKeysSameFreshness(stored.db, WriteNotice(s1.db, norm, a, first.ids).db, second.ids);
    }
  }

  lemma SameKeysSameFreshness(db: Db, db': Db, ids: Ids)
    requires FreshIds(db, ids) && db'.notices.Keys == db.notices.Keys && db'.versions == db.versions
    requires db'.attachments == db.attachments && db'.raws == db.raws
    ensures FreshIds(db', ids)
  {
    assert forall n | n in db'.notices :: n in db.notices.Keys;
  }

  lemma RunOfTwo(s: Store, norm: Normaliser, events: seq<Event>)
    requires |events| >= 2
    ensures var k := |events| - 2;
            Run(s, norm, events) == Next(Next(Run(s, norm, events[..k]), norm, events[k]), norm, events[k + 1])
  {
    var k := |events| - 2;
    assert events[..k + 1][..k] == events[..k];
  }

  // ---------------------------------------------------------------- the base spider's items

  /** As the base spider emits them: no external id, one dedup hash and one content, and both keys of
      the notice item derived with the page's locator, those of the version item without. */
  predicate BasePair(a: Item, b: Item) {
    && SameContent(a, b) && b.contentHash.Some?
    && a.externalId.None? && b.externalId.None?
    && a.dedupHash.Some? && b.dedupHash == a.dedupHash
    && a.title.Some? && b.title == a.title
    && HasBothKeys(a) && HasBothKeys(b)
    && a.sourceDuplicateKey != b.sourceDuplicateKey && a.dedupKey != b.dedupKey
  }

  /** A page as the base spider emits it (crawler/tender_crawler/spiders/base_source_spider.py), with
      short texts in place of hashes: the notice item's keys contain the page's locator. */
  const BASE_NOTICE := Item(1, None, None, Some("key with url"), Some("dedup key with url"), Some("hash"), Some("title"),
                            Announcement, Details(None, None, None, None, None, None, None), None, None, Some("content"), None, true, None)
  const BASE_VERSION := BASE_NOTICE.(sourceDuplicateKey := Some("key"), dedupKey := Some("dedup key"), versionNo := Some(1))

  lemma BaseItemsArePairs()
    ensures BasePair(BASE_NOTICE, BASE_VERSION)
  {
    assert BASE_NOTICE.sourceDuplicateKey.value[|"key"|..] != [];
  }

  /** In a table of one notice, an item that shares only the dedup hash is resolved by it. */
  lemma {:induction false} OnlyHashMatches(t: map<NoticeId, Notice>, norm: Normaliser, item: Item, n: NoticeId)
    requires t.Keys == {n} && t[n].source == item.source && item.dedupHash.Some? && t[n].dedupHash == item.dedupHash
    requires item.externalId.None?
    ensures Lookup(t, norm, item) == Some(n)
  {
    hide ByExternalId, BySourceDuplicateKey, ByDedupKey, ByDedupHash, BySimilarity;
    assert n in t && forall m | m in t :: m == n;
  }

  lemma {:induction false} NothingMatches(norm: Normaliser, item: Item)
    ensures Lookup(map[], norm, item) == None
  {
    hide ByExternalId, BySourceDuplicateKey, ByDedupKey, ByDedupHash, BySimilarity;
  }

  /** The first two writes of a base pair into empty tables. */
  lemma {:induction false} BasePairIsWritten(jobs: set<JobId>, norm: Normaliser, a: Item, b: Item, ids: Ids, ids': Ids)
    requires BasePair(a, b) && FreshIds(Next(Empty(jobs), norm, NoticeItem(a, ids)).db, ids')
    ensures var s := Next(Empty(jobs), norm, NoticeItem(a, ids));
            var stored := Next(s, norm, VersionItem(b, ids'));
            && s.log == [NoticeWrite(ids.notice, a, a.job, true)]
            && PairWritten(s.db, norm, a, b, ids') && Lookup(s.db.notices, norm, b) == Some(ids.notice)
            && Lookup(stored.db.notices, norm, a) == Some(ids.notice)
            && !HeldElsewhere(stored.db, a, WrittenVersion(s.db, norm, b, ids'))
  {
    var s := Next(Empty(jobs), norm, NoticeItem(a, ids));
    var n := Applied(NewNotice(a), a);
    NothingMatches(norm, a);
    hide Lookup, HighlySimilar;
    assert s.db.notices == map[ids.notice := n];
    OnlyHashMatches(s.db.notices, norm, b, ids.notice);
  }

  /** The failing input: written again after its pair, the base spider's notice item is not suppressed
      and changes the notice table; the version item that follows changes it back. */
  lemma {:induction false} BasePairIsRestamped(jobs: set<JobId>, norm: Normaliser, a: Item, b: Item, ids: Ids, ids': Ids, again: Ids, last: Ids)
    requires BasePair(a, b) && FreshIds(Next(Empty(jobs), norm, NoticeItem(a, ids)).db, ids')
    requires var stored := Next(Next(Empty(jobs), norm, NoticeItem(a, ids)), norm, VersionItem(b, ids'));
             FreshIds(stored.db, again) && FreshIds(stored.db, last)
    ensures var stored := Next(Next(Empty(jobs), norm, NoticeItem(a, ids)), norm, VersionItem(b, ids'));
            var restamped := Next(stored, norm, NoticeItem(a, again));
            && |restamped.log| == |stored.log| + 1 && restamped.log[|stored.log|].NoticeWrite?
            && restamped.db.notices != stored.db.notices
            && SameTables(stored.db, Next(restamped, norm, VersionItem(b, last)).db)
  {
    BasePairIsWritten(jobs, norm, a, b, ids, ids');
    var s := Next(Empty(jobs), norm, NoticeItem(a, ids));
    var stored := Next(s, norm, VersionItem(b, ids'));
    hide WriteVersion, Lookup, Stamped, HeldElsewhere, WrittenVersion, AlreadyStored;
    NoticeReplayExactly(s.db, norm, a, b, ids', stored.db, again);
    PairReplayRestores(s.db, norm, a, b, ids', stored.db, again, last);
    SameKeysSameFreshness(stored.db, WriteNotice(stored.db, norm, a, again).db, last);
    hide WriteNotice;
    NoticeWritesOnly(stored.db, norm, a, again);
  }

  lemma NoticeWritesOnly(db: Db, norm: Normaliser, item: Item, ids: Ids)
    requires WriteNotice(db, norm, item, ids).Committed?
    ensures WriteNotice(db, norm, item, ids).write.NoticeWrite? || WriteNotice(db, norm, item, ids).write.SuppressedWrite?
  {
    hide AlreadyStored, Resolve, HashTaken;
  }
}
