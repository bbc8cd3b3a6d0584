/** The version rows of a notice are a fold over the history of version writes resolved to it. */
module VersionHistory {
  import opened Options
  import opened Ordering
  import opened CrawlJobs
  import opened NoticeTables
  import opened NoticeCoherence

  // ---------------------------------------------------------------- folds over the history

  predicate VersionOf(w: Write, n: NoticeId) {
    w.VersionWrite? && w.notice == n && w.hash.Some?
  }

  /** The contents written to a notice, in the order of writing. */
  function HashesOf(log: seq<Write>, n: NoticeId): seq<Key> {
    if log == [] then []
    else
      var w := log[|log| - 1];
      HashesOf(log[..|log| - 1], n) + if VersionOf(w, n) then [w.hash.value] else []
  }

  /** The distinct members, in first-seen order. */
  function FirstSeen(s: seq<Key>): seq<Key> {
    if s == [] then []
    else
      var before := FirstSeen(s[..|s| - 1]);
      if s[|s| - 1] in before then before else before + [s[|s| - 1]]
  }

  /** The content written last among the writes that asked to be current. */
  function CurrentHash(log: seq<Write>, n: NoticeId): Option<Key> {
    if log == [] then None
    else
      var w := log[|log| - 1];
      if VersionOf(w, n) && w.isCurrent then w.hash else CurrentHash(log[..|log| - 1], n)
  }

  /** Whether the last write of this content asked to be current. */
  function LastFlag(log: seq<Write>, n: NoticeId, hash: Key): bool {
    if log == [] then false
    else
      var w := log[|log| - 1];
      if VersionOf(w, n) && w.hash.value == hash then w.isCurrent else LastFlag(log[..|log| - 1], n, hash)
  }

  lemma {:induction false} FirstSeenIsDistinct(s: seq<Key>)
    ensures Distinct(FirstSeen(s)) && forall x :: x in FirstSeen(s) <==> x in s
  {
    if s != [] {
      FirstSeenIsDistinct(s[..|s| - 1]);
      assert s == s[..|s| - 1] + [s[|s| - 1]];
    }
  }

  /** Earlier contents come first, and later writes never renumber. */
  lemma {:induction false} FirstSeenGrows(s: seq<Key>, k: nat)
    requires k <= |s|
    ensures FirstSeen(s[..k]) <= FirstSeen(s)
  {
    if k < |s| {
      assert s[..|s| - 1][..k] == s[..k];
      FirstSeenGrows(s[..|s| - 1], k);
    } else {
      assert s[..k] == s;
    }
  }

  lemma Appended(log: seq<Write>, w: Write, n: NoticeId)
    ensures HashesOf(log + [w], n) == HashesOf(log, n) + if VersionOf(w, n) then [w.hash.value] else []
    ensures CurrentHash(log + [w], n) == if VersionOf(w, n) && w.isCurrent then w.hash else CurrentHash(log, n)
    ensures forall hash :: LastFlag(log + [w], n, hash) ==
              if VersionOf(w, n) && w.hash.value == hash then w.isCurrent else LastFlag(log, n, hash)
  {
    assert (log + [w])[..|log|] == log;
  }

  lemma FirstSeenAppended(s: seq<Key>, x: Key)
    ensures FirstSeen(s + [x]) == if x in FirstSeen(s) then FirstSeen(s) else FirstSeen(s) + [x]
  {
    assert (s + [x])[..|s|] == s;
  }

  // ---------------------------------------------------------------- the refinement

  ghost predicate Taken(t: map<VersionId, Version>, n: NoticeId, no: int) {
    exists v :: HasNo(t, v, n, no)
  }

  /** The versions of n carry the numbers 1..|contents|, the k-th of them the k-th content. */
  ghost predicate Numbered(t: map<VersionId, Version>, n: NoticeId, contents: seq<Key>) {
    && (forall v | v in t && t[v].notice == n ::
          1 <= t[v].versionNo <= |contents| && t[v].contentHash == contents[t[v].versionNo - 1])
    && (forall k | 1 <= k <= |contents| :: Taken(t, n, k))
  }

  /** The pointer of n is at the current content, and a row is flagged exactly if it is pointed at
      and the last write of its content asked for it. */
  ghost predicate Pointed(s: Store, n: NoticeId)
    requires n in s.db.notices
  {
    var current := s.db.notices[n].currentVersionId;
    && (current.Some? <==> CurrentHash(s.log, n).Some?)
    && (current.Some? ==> HasContent(s.db.versions, current.value, n, CurrentHash(s.log, n).value))
    && (forall v | v in s.db.versions && s.db.versions[v].notice == n ::
          s.db.versions[v].isCurrent <==> current == Some(v) && LastFlag(s.log, n, s.db.versions[v].contentHash))
  }

  ghost predicate Refines(s: Store) {
    && (forall n | n in s.db.notices :: Numbered(s.db.versions, n, FirstSeen(HashesOf(s.log, n))) && Pointed(s, n))
    && (forall n: NoticeId | n !in s.db.notices :: HashesOf(s.log, n) == [] && CurrentHash(s.log, n) == None)
  }

  /** As the spiders emit them: the content is known and no particular number is asked for. */
  predicate SpiderVersion(item: Item) {
    item.contentHash.Some? && RequestedNo(item.versionNo) == 1
  }

  predicate AsSpidersEmit(events: seq<Event>) {
    forall i | 0 <= i < |events| && events[i].VersionItem? :: SpiderVersion(events[i].item)
  }

  // ---------------------------------------------------------------- steps

  /** Notices of other writes: rows may be restamped or appear bare; versions stand. */
  lemma OtherWriteKeepsRefinement(s: Store, s': Store, w: Write)
    requires Refines(s) && Coherent(s.db) && s'.log == s.log + [w] && !w.VersionWrite?
    requires s'.db.versions == s.db.versions && Restamped(s.db.notices, s'.db.notices)
    requires forall n | n in s'.db.notices && n !in s.db.notices :: s'.db.notices[n].currentVersionId.None?
    ensures Refines(s')
  {
    forall n: NoticeId | n in s'.db.notices
      ensures Numbered(s'.db.versions, n, FirstSeen(HashesOf(s'.log, n))) && Pointed(s', n)
    {
      OtherWriteKeepsNotice(s, s', w, n);
    }
    forall n: NoticeId | n !in s'.db.notices ensures HashesOf(s'.log, n) == [] && CurrentHash(s'.log, n) == None {
      Appended(s.log, w, n);
    }
  }

  lemma OtherWriteIsNotHistory(log: seq<Write>, w: Write, n: NoticeId)
    requires !w.VersionWrite?
    ensures HashesOf(log + [w], n) == HashesOf(log, n) && CurrentHash(log + [w], n) == CurrentHash(log, n)
    ensures forall hash :: LastFlag(log + [w], n, hash) == LastFlag(log, n, hash)
    ensures FirstSeen([]) == []
  {
    Appended(log, w, n);
  }

  lemma OtherWriteKeepsNotice(s: Store, s': Store, w: Write, n: NoticeId)
    requires Refines(s) && Coherent(s.db) && s'.log == s.log + [w] && !w.VersionWrite?
    requires s'.db.versions == s.db.versions && Restamped(s.db.notices, s'.db.notices)
    requires n in s'.db.notices && (n !in s.db.notices ==> s'.db.notices[n].currentVersionId.None?)
    ensures Numbered(s'.db.versions, n, FirstSeen(HashesOf(s'.log, n))) && Pointed(s', n)
  {
    hide HashesOf, CurrentHash, LastFlag, FirstSeen, NoticeKeys, FileKeys, VersionKeys;
    OtherWriteIsNotHistory(s.log, w, n);
    if n in s.db.notices {
      assert Pointed(s, n);
    } else {
      NoVersionsYet(s.db, n);
    }
  }

  /** Choosing against a numbered history: an old content finds its version, a new one gets the next number. */
  lemma ChoiceAgainstHistory(t: map<VersionId, Version>, n: NoticeId, item: Item, contents: seq<Key>)
    requires Numbered(t, n, contents) && Distinct(contents) && SpiderVersion(item)
    ensures var choice := ChooseVersion(t, n, item);
            && (choice.OldVersion? ==> item.contentHash.value in contents)
            && (choice.NewVersion? ==> item.contentHash.value !in contents && choice.no == |contents| + 1)
  {
    hide MaxVersionNo, ByVersionNo, ByContentHash;
    ChoiceFacts(t, n, item);
    forall hash | hash in contents ensures exists v :: HasContent(t, v, n, hash) {
      var k :| 0 <= k < |contents| && contents[k] == hash;
      assert Taken(t, n, k + 1);
      var v :| HasNo(t, v, n, k + 1);
      assert HasContent(t, v, n, hash);
    }
    HighestNumber(t, n, contents);
    if contents != [] {
      assert Taken(t, n, 1);
      var v :| HasNo(t, v, n, 1);
      assert ByVersionNo(t, n, 1).Some?;
    }
  }

  lemma HighestNumber(t: map<VersionId, Version>, n: NoticeId, contents: seq<Key>)
    requires Numbered(t, n, contents)
    ensures MaxVersionNo(t, n).GetOr(0) == |contents|
  {
    MaxIsHighest(t, n);
    if contents != [] {
      assert Taken(t, n, |contents|);
      var v :| HasNo(t, v, n, |contents|);
      assert v in VersionsOf(t, n);
    }
  }

  lemma VersionKeepsNumbering(t: map<VersionId, Version>, n: NoticeId, item: Item, id: VersionId, row: Version, contents: seq<Key>)
    requires Numbered(t, n, contents) && Distinct(contents) && SpiderVersion(item) && row.notice == n
    requires var choice := ChooseVersion(t, n, item);
             || (choice.OldVersion? && id == choice.id && row.versionNo == t[id].versionNo && row.contentHash == t[id].contentHash)
             || (choice.NewVersion? && id !in t && row.versionNo == choice.no && Some(row.contentHash) == item.contentHash)
    ensures var hash := item.contentHash.value;
            Numbered(WithVersion(t, id, row), n, if hash in contents then contents else contents + [hash])
  {
    ChoiceFacts(t, n, item);
    ChoiceAgainstHistory(t, n, item, contents);
    hide ChooseVersion, WithVersion, Distinct;
    if item.contentHash.value in contents {
      if id in t { RewrittenKeepsNumbering(t, n, id, row, contents); }
    } else if id !in t {
      NextKeepsNumbering(t, n, id, row, contents, item.contentHash.value);
    }
  }

  lemma RewrittenKeepsNumbering(t: map<VersionId, Version>, n: NoticeId, id: VersionId, row: Version, contents: seq<Key>)
    requires Numbered(t, n, contents) && row.notice == n && id in t && t[id].notice == n
    requires row.versionNo == t[id].versionNo && row.contentHash == t[id].contentHash
    ensures Numbered(WithVersion(t, id, row), n, contents)
  {
    WithVersionFacts(t, id, row);
    hide WithVersion;
    var t' := WithVersion(t, id, row);
    forall k | 1 <= k <= |contents| ensures Taken(t', n, k) {
      assert Taken(t, n, k);
      var v :| HasNo(t, v, n, k);
      assert HasNo(t', v, n, k);
    }
  }

  lemma NextKeepsNumbering(t: map<VersionId, Version>, n: NoticeId, id: VersionId, row: Version, contents: seq<Key>, hash: Key)
    requires Numbered(t, n, contents) && row.notice == n && id !in t
    requires row.versionNo == |contents| + 1 && row.contentHash == hash
    ensures Numbered(WithVersion(t, id, row), n, contents + [hash])
  {
    WithVersionFacts(t, id, row);
    hide WithVersion;
    var t' := WithVersion(t, id, row);
    forall k | 1 <= k <= |contents| + 1 ensures Taken(t', n, k) {
      if k <= |contents| {
        assert Taken(t, n, k);
        var v :| HasNo(t, v, n, k);
        assert HasNo(t', v, n, k);
      } else {
        assert HasNo(t', id, n, k);
      }
    }
  }

  lemma OtherNoticeKeepsNumbering(t: map<VersionId, Version>, m: NoticeId, id: VersionId, row: Version, contents: seq<Key>)
    requires Numbered(t, m, contents) && row.notice != m && (id in t ==> t[id].notice != m)
    ensures Numbered(WithVersion(t, id, row), m, contents)
  {
    WithVersionFacts(t, id, row);
    hide WithVersion;
    var t' := WithVersion(t, id, row);
    forall k | 1 <= k <= |contents| ensures Taken(t', m, k) {
      assert Taken(t, m, k);
      var v :| HasNo(t, v, m, k);
      assert HasNo(t', v, m, k);
    }
  }

  /** What a version write of notice n leaves in the store. */
  ghost predicate VersionStep(s: Store, s': Store, n: NoticeId, item: Item, id: VersionId, row: Version, w: Write) {
    && s'.log == s.log + [w] && VersionOf(w, n) && w.hash == item.contentHash && w.isCurrent == item.isCurrent
    && s'.db.versions == WithVersion(s.db.versions, id, row)
    && row.notice == n && Some(row.contentHash) == item.contentHash && row.isCurrent == item.isCurrent
    && (id in s.db.versions ==> HasContent(s.db.versions, id, n, row.contentHash))
    && (id !in s.db.versions ==> forall v :: !HasContent(s.db.versions, v, n, row.contentHash))
    && (forall m | m in s.db.notices :: m in s'.db.notices)
    && (forall m | m in s'.db.notices && m != n :: m in s.db.notices && s'.db.notices[m] == s.db.notices[m])
    && n in s'.db.notices
    && s'.db.notices[n].currentVersionId ==
       if row.isCurrent then Some(id) else if n in s.db.notices then s.db.notices[n].currentVersionId else None
  }

  lemma {:induction false} VersionKeepsPointers(s: Store, s': Store, n: NoticeId, item: Item, id: VersionId, row: Version, w: Write, m: NoticeId)
    requires Refines(s) && Coherent(s.db) && item.contentHash.Some? && VersionStep(s, s', n, item, id, row, w)
    requires m in s'.db.notices
    ensures Pointed(s', m)
  {
    Appended(s.log, w, m);
    WithVersionFacts(s.db.versions, id, row);
    hide WithVersion, HashesOf, FirstSeen, CurrentHash, LastFlag, References, NoticeKeys, FileKeys, Numbered;
    if m in s.db.notices {
      assert Pointed(s, m);
    } else {
      NoVersionsYet(s.db, m);
    }
    forall v | v in s'.db.versions && s'.db.versions[v].notice == m
      ensures s'.db.versions[v].isCurrent <==>
          s'.db.notices[m].currentVersionId == Some(v) && LastFlag(s'.log, m, s'.db.versions[v].contentHash)
    {
      if m == n && v != id {
        assert HasContent(s.db.versions, v, n, s.db.versions[v].contentHash);
        assert s.db.versions[v].contentHash != row.contentHash;
      }
    }
  }

  lemma NoVersionsYet(db: Db, n: NoticeId)
    requires References(db) && n !in db.notices
    ensures forall v | v in db.versions :: db.versions[v].notice != n
  {
    assert forall v | v in db.versions :: VersionOk(db, v);
  }

  /** A version write, as a step on the history of its notice. */
  lemma VersionWriteIsAStep(s: Store, norm: Normaliser, item: Item, ids: Ids)
    returns (n: NoticeId, id: VersionId, row: Version, w: Write)
    requires Coherent(s.db) && FreshIds(s.db, ids) && SpiderVersion(item)
    requires WriteVersion(s.db, norm, item, ids).Committed?
    ensures VersionStep(s, After(s, WriteVersion(s.db, norm, item, ids)), n, item, id, row, w)
    ensures var choice := ChooseVersion(s.db.versions, n, item);
            || (choice.OldVersion? && id == choice.id && id in s.db.versions && row.versionNo == s.db.versions[id].versionNo
                && row.contentHash == s.db.versions[id].contentHash)
            || (choice.NewVersion? && id !in s.db.versions && row.versionNo == choice.no)
  {
    hide Resolve, HashTaken, WriteVersion, ChooseVersion, WithVersion, NoticeKeys, VersionKeys, FileKeys, References, FindRaw;
    var notice;
    id, row, notice := VersionEffect(s.db, norm, item, ids);
    n := Resolve(s.db.notices, norm, item, ids.notice).id;
    w := WriteVersion(s.db, norm, item, ids).write;
    ResolvedRow(s.db.notices, norm, item, ids.notice);
    ChoiceFacts(s.db.versions, n, item);
  }

  lemma VersionWriteKeepsRefinement(s: Store, norm: Normaliser, item: Item, ids: Ids)
    requires Refines(s) && Coherent(s.db) && FreshIds(s.db, ids) && SpiderVersion(item)
    requires WriteVersion(s.db, norm, item, ids).Committed?
    ensures Refines(After(s, WriteVersion(s.db, norm, item, ids)))
  {
    hide WriteVersion, ChooseVersion, WithVersion, NoticeKeys, VersionKeys, FileKeys, References, After, Numbered, Pointed;
    var s' := After(s, WriteVersion(s.db, norm, item, ids));
    var n, id, row, w := VersionWriteIsAStep(s, norm, item, ids);
    forall m: NoticeId | m in s'.db.notices
      ensures Numbered(s'.db.versions, m, FirstSeen(HashesOf(s'.log, m))) && Pointed(s', m)
    {
      VersionKeepsPointers(s, s', n, item, id, row, w, m);
      VersionKeepsNumberingOf(s, s', n, item, id, row, w, m);
    }
    forall m: NoticeId | m !in s'.db.notices ensures HashesOf(s'.log, m) == [] && CurrentHash(s'.log, m) == None {
      Appended(s.log, w, m);
    }
  }

  lemma {:induction false} VersionKeepsNumberingOf(s: Store, s': Store, n: NoticeId, item: Item, id: VersionId, row: Version, w: Write, m: NoticeId)
    requires Refines(s) && References(s.db) && SpiderVersion(item) && VersionStep(s, s', n, item, id, row, w)
    requires var choice := ChooseVersion(s.db.versions, n, item);
             || (choice.OldVersion? && id == choice.id && id in s.db.versions && row.versionNo == s.db.versions[id].versionNo
                 && row.contentHash == s.db.versions[id].contentHash)
             || (choice.NewVersion? && id !in s.db.versions && row.versionNo == choice.no)
    requires m in s'.db.notices
    ensures Numbered(s'.db.versions, m, FirstSeen(HashesOf(s'.log, m)))
  {
    hide ChooseVersion, WithVersion, FirstSeen, Pointed;
    var before := FirstSeen(HashesOf(s.log, m));
    Appended(s.log, w, m);
    hide HashesOf;
    if m in s.db.notices {
      assert Numbered(s.db.versions, m, before);
    } else {
      NoVersionsYet(s.db, m);
      FirstSeenIsDistinct([]);
      EmptyOrInhabited(before);
    }
    if m == n {
      FirstSeenIsDistinct(HashesOf(s.log, m));
      FirstSeenAppended(HashesOf(s.log, m), item.contentHash.value);
      hide Numbered;
      VersionKeepsNumbering(s.db.versions, n, item, id, row, before);
    } else {
      assert HashesOf(s'.log, m) == HashesOf(s.log, m);
      hide Numbered;
      OtherNoticeKeepsNumbering(s.db.versions, m, id, row, before);
    }
  }

  lemma {:induction false} NoticeWriteKeepsRefinement(s: Store, norm: Normaliser, item: Item, ids: Ids)
    requires Refines(s) && Coherent(s.db) && FreshIds(s.db, ids) && WriteNotice(s.db, norm, item, ids).Committed?
    ensures Refines(After(s, WriteNotice(s.db, norm, item, ids)))
  {
    hide Resolve, HashTaken, AlreadyStored, NoticeKeys, VersionKeys, FileKeys, References, Refines;
    ResolvedRow(s.db.notices, norm, item, ids.notice);
    var effect := WriteNotice(s.db, norm, item, ids);
    OtherWriteKeepsRefinement(s, After(s, effect), effect.write);
  }

  lemma {:induction false} AttachmentWriteKeepsRefinement(s: Store, norm: Normaliser, item: Item, file: FileInfo, ids: Ids)
    requires Refines(s) && Coherent(s.db) && FreshIds(s.db, ids) && WriteAttachment(s.db, norm, item, file, ids).Committed?
    ensures Refines(After(s, WriteAttachment(s.db, norm, item, file, ids)))
  {
    hide WriteAttachment, Coherent, Refines;
    var effect := WriteAttachment(s.db, norm, item, file, ids);
    AttachmentWriteStamps(s.db, norm, item, file, ids);
    OtherWriteKeepsRefinement(s, After(s, effect), effect.write);
  }

  lemma {:induction false} StepKeepsRefinement(s: Store, norm: Normaliser, e: Event)
    requires Refines(s) && Coherent(s.db) && (e.VersionItem? ==> SpiderVersion(e.item))
    ensures Refines(Next(s, norm, e))
  {
    hide Refines, Coherent, WriteNotice, WriteVersion, WriteAttachment;
    var effect := EffectOf(s.db, norm, e);
    if FreshEvent(s.db, e) && effect.Committed? {
      match e
      case NoticeItem(item, ids) => NoticeWriteKeepsRefinement(s, norm, item, ids);
      case VersionItem(item, ids) => VersionWriteKeepsRefinement(s, norm, item, ids);
      case AttachmentItem(item, file, ids) => AttachmentWriteKeepsRefinement(s, norm, item, file, ids);
      case RawDocumentItem(raw, ids) => OtherWriteKeepsRefinement(s, After(s, effect), effect.write);
      case ErrorItem(job) => OtherWriteKeepsRefinement(s, After(s, effect), effect.write);
    }
  }

  lemma {:induction false} RunRefinesHistory(jobs: set<JobId>, norm: Normaliser, events: seq<Event>)
    requires AsSpidersEmit(events)
    ensures Refines(Run(Empty(jobs), norm, events))
  {
    hide Next;
    if events == [] {
      assert Run(Empty(jobs), norm, events) == Empty(jobs);
    } else {
      var init := events[..|events| - 1];
      RunRefinesHistory(jobs, norm, init);
      StoreStaysCoherent(jobs, norm, init);
      hide Refines;
      StepKeepsRefinement(Run(Empty(jobs), norm, init), norm, events[|events| - 1]);
    }
  }

  // ---------------------------------------------------------------- what a reader of the tables sees

  /** Exactly one version per distinct content, numbered 1, 2, .. in the order the contents first appeared. */
  ghost predicate OneVersionPerContent(t: map<VersionId, Version>, n: NoticeId, written: seq<Key>) {
    var contents := FirstSeen(written);
    && Numbered(t, n, contents)
    && Distinct(contents) && (forall hash :: hash in contents <==> hash in written)
    && (forall v, w, no | HasNo(t, v, n, no) && HasNo(t, w, n, no) :: v == w)
    && (forall v, w, hash | HasContent(t, v, n, hash) && HasContent(t, w, n, hash) :: v == w)
  }

  /** After any run of writes as the spiders emit them, the versions of every stored notice are the
      distinct contents written to it, numbered in first-seen order. */
  lemma {:induction false} VersionsNumberTheHistory(jobs: set<JobId>, norm: Normaliser, events: seq<Event>, n: NoticeId)
    requires AsSpidersEmit(events)
    requires n in Run(Empty(jobs), norm, events).db.notices
    ensures var s := Run(Empty(jobs), norm, events); OneVersionPerContent(s.db.versions, n, HashesOf(s.log, n))
  {
    var s := Run(Empty(jobs), norm, events);
    RunRefinesHistory(jobs, norm, events);
    StoreStaysCoherent(jobs, norm, events);
    FirstSeenIsDistinct(HashesOf(s.log, n));
    hide Run, HashesOf, FirstSeen, Numbered, Pointed, NoticeKeys, FileKeys, References;
  }

  /** Every version item asks to be current, as the spiders' items do. */
  predicate AllAskToBeCurrent(events: seq<Event>) {
    forall i | 0 <= i < |events| && events[i].VersionItem? :: events[i].item.isCurrent
  }

  ghost predicate AllCurrent(log: seq<Write>) {
    forall i | 0 <= i < |log| && log[i].VersionWrite? :: log[i].isCurrent
  }

  lemma {:induction false} LastWriteIsCurrent(log: seq<Write>, n: NoticeId)
    requires AllCurrent(log)
    ensures var hashes := HashesOf(log, n);
            CurrentHash(log, n) == if hashes == [] then None else Some(hashes[|hashes| - 1])
    ensures forall hash | hash in HashesOf(log, n) :: LastFlag(log, n, hash)
  {
    if log != [] {
      var init := log[..|log| - 1];
      var w := log[|log| - 1];
      assert AllCurrent(init);
      LastWriteIsCurrent(init, n);
      forall hash | hash in HashesOf(log, n) ensures LastFlag(log, n, hash) {
        if !(VersionOf(w, n) && w.hash.value == hash) { assert hash in HashesOf(init, n); }
      }
    }
  }

  lemma {:induction false} RunWritesCurrent(jobs: set<JobId>, norm: Normaliser, events: seq<Event>)
    requires AllAskToBeCurrent(events)
    ensures AllCurrent(Run(Empty(jobs), norm, events).log)
  {
    if events == [] {
      assert Run(Empty(jobs), norm, events) == Empty(jobs);
    } else {
      var init := events[..|events| - 1];
      RunWritesCurrent(jobs, norm, init);
      var s := Run(Empty(jobs), norm, init);
      hide Run, Resolve, HashTaken, ChooseVersion, AlreadyStored, WithVersion, FindRaw, FindAttachment;
      assert EffectOf(s.db, norm, events[|events| - 1]).Committed? && EffectOf(s.db, norm, events[|events| - 1]).write.VersionWrite?
             ==> EffectOf(s.db, norm, events[|events| - 1]).write.isCurrent;
    }
  }

  /** Once a notice has had contents, its pointer is at the version of the last one written, and
      that version is the only row flagged current. */
  lemma {:induction false} PointerIsLastWritten(jobs: set<JobId>, norm: Normaliser, events: seq<Event>, n: NoticeId)
    requires AsSpidersEmit(events)
    requires AllAskToBeCurrent(events)
    requires n in Run(Empty(jobs), norm, events).db.notices
    ensures var s := Run(Empty(jobs), norm, events);
            var hashes := HashesOf(s.log, n);
            var current := s.db.notices[n].currentVersionId;
            && (current.Some? <==> hashes != [])
            && (current.Some? ==> HasContent(s.db.versions, current.value, n, hashes[|hashes| - 1]))
            && (forall v | v in s.db.versions && s.db.versions[v].notice == n :: s.db.versions[v].isCurrent <==> current == Some(v))
  {
    var s := Run(Empty(jobs), norm, events);
    RunRefinesHistory(jobs, norm, events);
    RunWritesCurrent(jobs, norm, events);
    LastWriteIsCurrent(s.log, n);
    hide Run, LastFlag, CurrentHash, HashesOf, Numbered;
    assert Pointed(s, n);
  }

  // ---------------------------------------------------------------- numbers over time

  lemma {:induction false} RunSplits(s: Store, norm: Normaliser, first: seq<Event>, second: seq<Event>)
    ensures Run(s, norm, first + second) == Run(Run(s, norm, first), norm, second)
  {
    var all := first + second;
    if second == [] {
      assert all == first;
    } else {
      assert all[..|all| - 1] == first + second[..|second| - 1] && all[|all| - 1] == second[|second| - 1];
      RunSplits(s, norm, first, second[..|second| - 1]);
    }
  }

  lemma {:induction false} LogGrows(s: Store, norm: Normaliser, events: seq<Event>)
    ensures s.log <= Run(s, norm, events).log
    ensures forall n | n in s.db.notices :: n in Run(s, norm, events).db.notices
  {
    hide WriteNotice, WriteVersion, WriteAttachment, WriteRaw, WriteError;
    if events != [] {
      var before := Run(s, norm, events[..|events| - 1]);
      var e := events[|events| - 1];
      LogGrows(s, norm, events[..|events| - 1]);
      hide Run;
      if FreshEvent(before.db, e) { NoticesStay(before.db, norm, e); }
    }
  }

  lemma NoticesStay(db: Db, norm: Normaliser, e: Event)
    ensures var effect := EffectOf(db, norm, e); effect.Committed? ==> db.notices.Keys <= effect.db.notices.Keys
  {
    hide Resolve, HashTaken, AlreadyStored, ChooseVersion, VersionRow, WithVersion, FindRaw, FindAttachment, AttachedVersion, DocumentWithContent, Counted;
  }

  lemma {:induction false} HistoryGrows(log: seq<Write>, k: nat, n: NoticeId)
    requires k <= |log|
    ensures HashesOf(log[..k], n) <= HashesOf(log, n)
  {
    if k < |log| {
      assert log[..|log| - 1][..k] == log[..k];
      HistoryGrows(log[..|log| - 1], k, n);
    } else {
      assert log[..k] == log;
    }
  }

  lemma ContentsGrow(log: seq<Write>, log': seq<Write>, n: NoticeId)
    requires log <= log'
    ensures FirstSeen(HashesOf(log, n)) <= FirstSeen(HashesOf(log', n))
  {
    hide FirstSeen, HashesOf;
    HistoryGrows(log', |log|, n);
    assert log'[..|log|] == log;
    FirstSeenGrows(HashesOf(log', n), |HashesOf(log, n)|);
    assert HashesOf(log', n)[..|HashesOf(log, n)|] == HashesOf(log, n);
  }

  lemma SameNumberSameContent(t: map<VersionId, Version>, t': map<VersionId, Version>, n: NoticeId, contents: seq<Key>, contents': seq<Key>,
                              v: VersionId, no: int)
    requires Numbered(t, n, contents) && Numbered(t', n, contents') && contents <= contents' && HasNo(t, v, n, no)
    ensures Taken(t', n, no) && forall w | HasNo(t', w, n, no) :: t'[w].contentHash == t[v].contentHash
  {
  }

  lemma NumberedNotice(s: Store, v: VersionId)
    requires Refines(s) && References(s.db) && v in s.db.versions
    ensures var n := s.db.versions[v].notice;
            n in s.db.notices && Numbered(s.db.versions, n, FirstSeen(HashesOf(s.log, n)))
  {
    assert VersionOk(s.db, v);
  }

  lemma EmittedTogether(first: seq<Event>, second: seq<Event>)
    requires AsSpidersEmit(first) && AsSpidersEmit(second)
    ensures AsSpidersEmit(first + second)
  {
  }

  /** A version number once given to a content keeps it: whatever is written later, the notice has
      exactly one version of that number and it holds that content. */
  lemma {:induction false} NumbersAreForever(jobs: set<JobId>, norm: Normaliser, first: seq<Event>, second: seq<Event>,
                                             n: NoticeId, v: VersionId, no: int)
    requires AsSpidersEmit(first) && AsSpidersEmit(second)
    requires HasNo(Run(Empty(jobs), norm, first).db.versions, v, n, no)
    ensures var t := Run(Empty(jobs), norm, first).db.versions;
            var t' := Run(Run(Empty(jobs), norm, first), norm, second).db.versions;
            Taken(t', n, no) && forall w, w' | HasNo(t', w, n, no) && HasNo(t', w', n, no) :: w == w' && t'[w].contentHash == t[v].contentHash
  {
    hide Run, AsSpidersEmit, Numbered, Pointed, NoticeKeys, FileKeys, HashesOf, FirstSeen, References;
    var s := Run(Empty(jobs), norm, first);
    var s' := Run(s, norm, second);
    RunSplits(Empty(jobs), norm, first, second);
    EmittedTogether(first, second);
    RunRefinesHistory(jobs, norm, first);
    RunRefinesHistory(jobs, norm, first + second);
    StoreStaysCoherent(jobs, norm, first);
    StoreStaysCoherent(jobs, norm, first + second);
    NumberedNotice(s, v);
    LogGrows(s, norm, second);
    ContentsGrow(s.log, s'.log, n);
    SameNumberSameContent(s.db.versions, s'.db.versions, n, FirstSeen(HashesOf(s.log, n)), FirstSeen(HashesOf(s'.log, n)), v, no);
  }
}
