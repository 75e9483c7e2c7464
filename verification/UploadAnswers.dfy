/** What an upload and a deletion answer, and what they leave: for every request, in terms of the site before it. */
module UploadAnswers {
  import opened Base
  import opened Text
  import opened Expiry
  import opened Pastes
  import opened PasteRuns
  import opened Uploads

  // ----- deletion -----

  /** A visible record of the filename whose file is there. */
  predicate Candidate(site: Site, id: int, filename: string, now: int) {
    var rows := site.pastes.rows;
    id in rows && rows[id].filename == filename && Unexpired(rows[id].expiresAt, now) && rows[id].path in site.files
  }

  /** The order in which the records of a filename are tried. */
  const KINDS: seq<PasteType> := [File, RemoteFile, Url, Oneshot, OneshotUrl, ProtectedFile]

  predicate SortsBefore(a: PasteType, b: PasteType) {
    exists i, j :: 0 <= i < j < |KINDS| && KINDS[i] == a && KINDS[j] == b
  }

  lemma RanksAreSorted(a: PasteType, b: PasteType)
    ensures KindRank(a) < KindRank(b) <==> SortsBefore(a, b)
  {
    assert KINDS[KindRank(a)] == a && KINDS[KindRank(b)] == b;
  }

  /** The candidate that comes first, by type and then by id. */
  predicate FirstCandidate(site: Site, id: int, filename: string, now: int) {
    var rows := site.pastes.rows;
    && Candidate(site, id, filename, now)
    && forall other :: other in rows && Candidate(site, other, filename, now) ==>
      || SortsBefore(rows[id].kind, rows[other].kind)
      || (rows[id].kind == rows[other].kind && id <= other)
  }

  /** Administrators delete everything, everybody else what is theirs. */
  predicate MayDelete(row: PasteRow, requester: Option<int>, globalDelete: bool) {
    globalDelete || row.owner == requester
  }

  /** The record and its pair of files are gone, and nothing else. */
  predicate DeletesOnly(before: Site, after: Site, id: int)
    requires id in before.pastes.rows
  {
    var path := before.pastes.rows[id].path;
    && after.pastes == before.pastes.(rows := before.pastes.rows - {id})
    && after.files == before.files - {path, SidecarOf(path)}
  }

  /**
   A deletion takes the first candidate of the filename, and only if it is the requester's or the requester may
   delete everything; it is forbidden exactly when that is not so, and finds nothing exactly when there is no
   candidate. Refused, it changes nothing.
   */
  lemma DeletionIsExact(site: Site, filename: string, requester: Option<int>, globalDelete: bool, now: int)
    ensures
      var rows := site.pastes.rows;
      var (after, reply) := DeleteUpload(site, filename, requester, globalDelete, now);
      && (reply.Deleted? <==> exists id ::
            FirstCandidate(site, id, filename, now) && MayDelete(rows[id], requester, globalDelete))
      && (reply.Forbidden? <==> exists id ::
            FirstCandidate(site, id, filename, now) && !MayDelete(rows[id], requester, globalDelete))
      && (reply.NotFound? <==> forall id :: id in rows ==> !Candidate(site, id, filename, now))
      && (reply.Deleted? ==> forall id :: FirstCandidate(site, id, filename, now) ==> DeletesOnly(site, after, id))
      && (!reply.Deleted? ==> after == site)
  {
    var rows, ids := site.pastes.rows, Deletable(site, filename, now);
    forall id ensures id in ids <==> Candidate(site, id, filename, now) {
    }
    forall a, b ensures KindRank(a) < KindRank(b) <==> SortsBefore(a, b) {
      RanksAreSorted(a, b);
    }
    var first := FirstRecord(rows, ids);
    if first.Some? {
      var id: int := first.value;
      assert FirstCandidate(site, id, filename, now);
      forall other | FirstCandidate(site, other, filename, now) ensures other == id {
      }
    } else {
      forall id ensures !Candidate(site, id, filename, now) {
        assert id !in ids;
      }
    }
  }

  // ----- the duplicate check -----

  /** The owner's newest paste of this content is there, and compatible. */
  predicate Answers(site: Site, id: int, u: Upload, hash: string, now: int) {
    var rows := site.pastes.rows;
    && NewestOfContent(rows, id, u.owner, hash, now)
    && rows[id].path in site.files && IsCompatibleDuplicate(u.kind, rows[id].kind)
  }

  /** The owner's newest paste of this content has lost its file. */
  predicate LostItsFile(site: Site, id: int, u: Upload, hash: string, now: int) {
    NewestOfContent(site.pastes.rows, id, u.owner, hash, now) && site.pastes.rows[id].path !in site.files
  }

  /** The check answers with nobody's paste but the owner's, and drops nobody's row but the owner's. */
  lemma CheckIsExact(site: Site, u: Upload, hash: string, now: int)
    ensures
      var rows, glance := site.pastes.rows, CheckDuplicate(site, u, hash, now);
      && (glance.Known? <==> exists id :: Answers(site, id, u, hash, now))
      && (forall id :: Answers(site, id, u, hash, now) ==> glance == Known(Record(id, rows[id])))
      && (forall id :: LostItsFile(site, id, u, hash, now) ==>
            glance == Proceed(site.pastes.(rows := rows - {id})))
      && (glance.Proceed? && (forall id :: id in rows ==> !LostItsFile(site, id, u, hash, now)) ==>
            glance.pastes == site.pastes)
  {
    var rows, found := site.pastes.rows, FindOwnerDuplicate(site.pastes.rows, u.owner, hash, now);
    forall id | NewestOfContent(rows, id, u.owner, hash, now) ensures found == Some(id) {
    }
    if found.Some? {
      assert NewestOfContent(rows, found.value, u.owner, hash, now);
      assert CheckDuplicate(site, u, hash, now).Known? ==> Answers(site, found.value, u, hash, now);
    }
  }

  // ----- recording -----

  predicate Deduplicates(u: Upload) {
    Suppresses(u) && DedupCategory(u.kind).Some?
  }

  /** A keyed paste of the uploader, of a compatible type and the stored content. */
  predicate SameUpload(row: PasteRow, u: Upload) {
    && row.dedupKey.Some? && row.owner == Some(u.owner) && row.contentHash == u.storedHash
    && IsCompatibleDuplicate(u.kind, row.kind)
  }

  predicate FoldsInto(site: Site, id: int, u: Upload) {
    && Deduplicates(u) && id in site.pastes.rows && SameUpload(site.pastes.rows[id], u)
    && site.pastes.rows[id].path in site.files
  }

  /** A duplicate that has lost its file gives way. */
  predicate GivesWay(row: PasteRow, files: Files, u: Upload) {
    Deduplicates(u) && SameUpload(row, u) && row.path !in files
  }

  predicate NameTaken(site: Site, u: Upload, expiresAt: Option<int>, now: int) {
    var rows := site.pastes.rows;
    Unexpired(expiresAt, now) && exists id ::
      id in rows && rows[id].filename == u.filename && Unexpired(rows[id].expiresAt, now)
      && !GivesWay(rows[id], site.files, u)
  }

  predicate PathHeld(site: Site, u: Upload) {
    var rows := site.pastes.rows;
    exists id :: id in rows && rows[id].path == TargetPath(u) && !GivesWay(rows[id], site.files, u)
  }

  /** The row of an accepted upload. */
  function AcceptedRow(u: Upload, expiresAt: Option<int>, now: int): PasteRow {
    PasteRow(Some(u.owner), u.filename, TargetPath(u), u.kind, u.createdAt, u.createdAt, u.size, expiresAt,
             u.storedHash,
             if Deduplicates(u) then Some(DedupKey(DedupCategory(u.kind).value, u.storedHash)) else None,
             if Unexpired(expiresAt, now) then Some(u.filename) else None)
  }

  predicate ValidUpload(u: Upload) {
    u.filename != "" && !Blank(u.storedHash) && u.size <= I64_MAX
  }

  /** Rows of the uploader that go have this content and no file; all other rows stay. */
  predicate DropsOwnOnly(before: PasteRows, after: PasteRows, files: Files, u: Upload, now: int) {
    && (forall id :: id in before && id in after ==> Released(before[id], after[id], now))
    && (forall id :: id in before && id !in after ==> OwnLost(before[id], files, u))
  }

  predicate OwnLost(row: PasteRow, files: Files, u: Upload) {
    row.owner == Some(u.owner) && row.contentHash in {u.rawHash, u.storedHash} && row.path !in files
  }

  lemma DropsTwice(a: PasteRows, b: PasteRows, c: PasteRows, files: Files, more: Files, u: Upload, now: int)
    requires DropsOwnOnly(a, b, files, u, now) && DropsOwnOnly(b, c, more, u, now) && files.Keys <= more.Keys
    requires forall id :: id in c && id !in b ==> id !in a
    ensures DropsOwnOnly(a, c, files, u, now)
  {
  }

  lemma UploadIsNewPaste(u: Upload, expiresAt: Option<int>, row: PasteRow)
    ensures ValidNewPaste(PasteOf(u, expiresAt)) <==> ValidUpload(u)
    ensures Duplicates(row, PasteOf(u, expiresAt)) <==> SameUpload(row, u)
  {
    assert TargetPath(u).name != "" || u.filename == "";
  }

  /** Two duplicates of one upload are the same row. */
  lemma SameUploadIsUnique(rows: PasteRows, u: Upload, a: int, b: int)
    requires UniqueDedup(rows) && KeysOk(rows) && a in rows && b in rows
    requires SameUpload(rows[a], u) && SameUpload(rows[b], u)
    ensures a == b
  {
    assert KeyedByContent(rows[a]) && KeyedByContent(rows[b]);
    CategoriesAreCompatibility(u.kind, rows[a].kind);
    CategoriesAreCompatibility(u.kind, rows[b].kind);
    assert SameDedup(rows[a], rows[b]);
  }

  /** What one attempt answers, given the rows and files it meets. */
  ghost predicate AttemptAnswers(t: Table<PasteRow>, files: Files, u: Upload, expiresAt: Option<int>, now: int,
                                 after: Table<PasteRow>, persisted: Persisted) {
    var site := Site(files, t);
    && (!ValidUpload(u) ==> persisted == Refused(InvalidInput))
    && (ValidUpload(u) ==> (persisted.Existing? <==> exists id :: FoldsInto(site, id, u)))
    && (persisted.Existing? ==>
          && FoldsInto(site, persisted.record.id, u)
          && persisted.record.id in after.rows && persisted.record.row == after.rows[persisted.record.id])
    && (ValidUpload(u) && !persisted.Existing? ==>
          && (persisted == Refused(PublicFilenameConflict(u.filename)) <==> NameTaken(site, u, expiresAt, now))
          && (persisted == Refused(Database) <==> !NameTaken(site, u, expiresAt, now) && PathHeld(site, u))
          && (persisted == Recorded <==> !NameTaken(site, u, expiresAt, now) && !PathHeld(site, u)))
    && (!persisted.Recorded? ==> after.rows.Keys <= t.rows.Keys && after.nextId == t.nextId)
    && (persisted.Recorded? ==>
          && after.nextId == t.nextId + 1 && after.rows.Keys <= t.rows.Keys + {t.nextId}
          && t.nextId in after.rows && after.rows[t.nextId] == AcceptedRow(u, expiresAt, now))
    && DropsOwnOnly(t.rows, after.rows, files, u, now)
  }

  lemma PlainRecord(t: Table<PasteRow>, files: Files, u: Upload, expiresAt: Option<int>, now: int)
    requires PastesOk(t, now) && !Deduplicates(u)
    ensures
      var (after, persisted) := Persist(t, files, PasteOf(u, expiresAt), false, now);
      AttemptAnswers(t, files, u, expiresAt, now, after, persisted)
  {
    var p := PasteOf(u, expiresAt);
    InsertIsExact(t, p, now);
    UploadIsNewPaste(u, expiresAt, AcceptedRow(u, expiresAt, now));
  }

  /** If no duplicate has lost its file, the duplicates are the records to fold into. */
  lemma DuplicatesFold(t: Table<PasteRow>, files: Files, u: Upload)
    requires Deduplicates(u) && forall id :: id in t.rows ==> !GivesWay(t.rows[id], files, u)
    ensures forall id :: id in t.rows ==>
      (Duplicates(t.rows[id], PasteOf(u, None)) <==> FoldsInto(Site(files, t), id, u))
    ensures (exists id :: id in t.rows && Duplicates(t.rows[id], PasteOf(u, None))) <==>
      exists id :: FoldsInto(Site(files, t), id, u)
  {
    forall id | id in t.rows ensures Duplicates(t.rows[id], PasteOf(u, None)) <==> FoldsInto(Site(files, t), id, u) {
      UploadIsNewPaste(u, None, t.rows[id]);
    }
    if id :| id in t.rows && Duplicates(t.rows[id], PasteOf(u, None)) {
      assert FoldsInto(Site(files, t), id, u);
    }
  }

  lemma NothingGivesWay(t: Table<PasteRow>, files: Files, u: Upload, now: int)
    requires forall id :: id in t.rows ==> !GivesWay(t.rows[id], files, u)
    ensures NameTaken(Site(files, t), u, None, now) <==> VisibleAs(t.rows, u.filename, now)
    ensures PathHeld(Site(files, t), u) <==> PathTaken(t.rows, TargetPath(u))
  {
  }

  /** An attempt of a deduplicated upload that meets no duplicate without a file. */
  lemma CleanAttempt(t: Table<PasteRow>, files: Files, u: Upload, now: int, passes: nat)
    requires PastesOk(t, now) && Deduplicates(u) && passes > 0
    requires forall id :: id in t.rows ==> !GivesWay(t.rows[id], files, u)
    ensures
      var (after, persisted) := RetryInsert(t, files, PasteOf(u, None), now, passes);
      AttemptAnswers(t, files, u, None, now, after, persisted)
  {
    DeduplicationIsExact(t, PasteOf(u, None), now);
    DuplicatesFold(t, files, u);
    NothingGivesWay(t, files, u, now);
    UploadIsNewPaste(u, None, AcceptedRow(u, None, now));
    var result := InsertDeduplicated(t, PasteOf(u, None), now).1;
    if result.Ok? && result.value.Duplicate? {
      assert FoldsInto(Site(files, t), result.value.record.id, u);
    }
  }

  /** The rows that are left when a duplicate without a file has given way. */
  predicate LeftBy(t: Table<PasteRow>, again: Table<PasteRow>, stale: int, now: int) {
    && again.nextId == t.nextId && again.rows.Keys == t.rows.Keys - {stale}
    && forall id :: id in again.rows ==> Released(t.rows[id], again.rows[id], now)
  }

  lemma StaleGivesWay(t: Table<PasteRow>, files: Files, u: Upload, now: int, stale: int, passes: nat)
    returns (again: Table<PasteRow>)
    requires PastesOk(t, now) && Deduplicates(u) && ValidUpload(u) && passes > 0
    requires stale in t.rows && GivesWay(t.rows[stale], files, u)
    ensures PastesOk(again, now) && LeftBy(t, again, stale, now)
    ensures forall id :: id in again.rows ==> !SameUpload(again.rows[id], u)
    ensures RetryInsert(t, files, PasteOf(u, None), now, passes)
      == RetryInsert(again, files, PasteOf(u, None), now, passes - 1)
  {
    var p := PasteOf(u, None);
    UploadIsNewPaste(u, None, t.rows[stale]);
    DeduplicationIsExact(t, p, now);
    var (after, result) := InsertDeduplicated(t, p, now);
    var hit := result.value.record.id;
    UploadIsNewPaste(u, None, t.rows[hit]);
    SameUploadIsUnique(t.rows, u, hit, stale);
    again := DeletePaste(after, hit);
    InsertKeepsPastesOk(t, p, now);
    DeleteKeepsPastesOk(after, hit, p.path, now);
    forall id | id in again.rows ensures !SameUpload(again.rows[id], u) {
      if SameUpload(t.rows[id], u) {
        SameUploadIsUnique(t.rows, u, id, stale);
      }
    }
  }

  /** What blocks the upload after the stale duplicate is gone blocked it before. */
  lemma SameObstacles(t: Table<PasteRow>, again: Table<PasteRow>, files: Files, u: Upload, expiresAt: Option<int>,
                      now: int, stale: int)
    requires LeftBy(t, again, stale, now) && stale in t.rows && GivesWay(t.rows[stale], files, u)
    requires forall id :: id in again.rows ==> !SameUpload(again.rows[id], u)
    ensures NameTaken(Site(files, t), u, expiresAt, now) <==> NameTaken(Site(files, again), u, expiresAt, now)
    ensures PathHeld(Site(files, t), u) <==> PathHeld(Site(files, again), u)
    ensures forall id :: !FoldsInto(Site(files, t), id, u) && !FoldsInto(Site(files, again), id, u)
  {
    forall id | id in t.rows && id != stale
      ensures id in again.rows && !SameUpload(t.rows[id], u) && again.rows[id].path == t.rows[id].path
    {
      assert id in again.rows;
    }
    if NameTaken(Site(files, t), u, expiresAt, now) {
      var id :| id in t.rows && t.rows[id].filename == u.filename && Unexpired(t.rows[id].expiresAt, now)
                && !GivesWay(t.rows[id], files, u);
      assert id in again.rows && again.rows[id].filename == u.filename;
    }
    if PathHeld(Site(files, t), u) {
      var id :| id in t.rows && t.rows[id].path == TargetPath(u) && !GivesWay(t.rows[id], files, u);
      assert id in again.rows && again.rows[id].path == TargetPath(u);
    }
  }

  lemma StaleAttemptAnswers(t: Table<PasteRow>, files: Files, u: Upload, now: int, stale: int)
    requires PastesOk(t, now) && Deduplicates(u) && ValidUpload(u)
    requires stale in t.rows && GivesWay(t.rows[stale], files, u)
    ensures
      var (after, persisted) := RetryInsert(t, files, PasteOf(u, None), now, PERSIST_PASSES);
      AttemptAnswers(t, files, u, None, now, after, persisted)
  {
    var again := StaleGivesWay(t, files, u, now, stale, PERSIST_PASSES);
    CleanAttempt(again, files, u, now, PERSIST_PASSES - 1);
    SameObstacles(t, again, files, u, None, now, stale);
    var after := RetryInsert(again, files, PasteOf(u, None), now, PERSIST_PASSES - 1).0;
    assert DropsOwnOnly(t.rows, again.rows, files, u, now);
    assert t.nextId !in t.rows;
    DropsTwice(t.rows, again.rows, after.rows, files, files, u, now);
  }

  /** Recording an upload: the retry loop answers as if the duplicate without a file had not been there. */
  lemma PersistAnswers(t: Table<PasteRow>, files: Files, u: Upload, expiresAt: Option<int>, now: int)
    requires PastesOk(t, now) && (Deduplicates(u) ==> expiresAt.None?)
    ensures
      var (after, persisted) := Persist(t, files, PasteOf(u, expiresAt), Deduplicates(u), now);
      AttemptAnswers(t, files, u, expiresAt, now, after, persisted)
  {
    if !Deduplicates(u) {
      PlainRecord(t, files, u, expiresAt, now);
    } else if stale :| stale in t.rows && GivesWay(t.rows[stale], files, u) && ValidUpload(u) {
      StaleAttemptAnswers(t, files, u, now, stale);
    } else if ValidUpload(u) {
      CleanAttempt(t, files, u, now, PERSIST_PASSES);
    } else {
      UploadIsNewPaste(u, None, AcceptedRow(u, None, now));
      DeduplicationIsExact(t, PasteOf(u, None), now);
    }
  }

  // ----- the whole upload -----

  /** No file is in the way: exclusive creation succeeds for the sidecar, if it needs one, and the content. */
  ghost predicate Storable(files: Files, u: Upload, nanos: nat) {
    && TriesNames(files, u, nanos) && TargetPath(u) !in files
    && (u.kind.ProtectedFile? ==> SidecarOf(TargetPath(u)) !in files)
  }

  /** The directory with the files of the upload. */
  function WithUpload(files: Files, u: Upload): Files {
    var locked := if u.kind.ProtectedFile? then files[SidecarOf(TargetPath(u)) := PasswordHash] else files;
    locked[TargetPath(u) := Content(u.storedHash)]
  }

  lemma StoredWhenStorable(files: Files, u: Upload, nanos: nat)
    ensures StoreEntry(files, u, nanos).1 <==> Storable(files, u, nanos)
    ensures StoreEntry(files, u, nanos).1 ==> StoreEntry(files, u, nanos).0 == WithUpload(files, u)
  {
    assert |SidecarOf(TargetPath(u)).name| == |TargetPath(u).name| + 9;
  }

  /** URLs and files are looked up by the bytes sent, before anything is stored. */
  predicate ChecksEarly(u: Upload) {
    Suppresses(u) && (u.kind.File? || u.kind.Url?)
  }

  /** Remote files are looked up by the bytes stored. */
  predicate ChecksLate(u: Upload) {
    Suppresses(u) && u.kind.RemoteFile?
  }

  ghost predicate FoundEarly(site: Site, u: Upload, now: int) {
    ChecksEarly(u) && exists id :: Answers(site, id, u, u.rawHash, now)
  }

  ghost predicate FoundLate(site: Site, u: Upload, now: int) {
    ChecksLate(u) && exists id :: Answers(site, id, u, u.storedHash, now)
  }

  /** The site after a check that answered nothing: the row whose file is lost is gone. */
  ghost predicate AfterCheck(before: Site, after: Site, checks: bool, u: Upload, hash: string, now: int) {
    && after.files == before.files
    && (forall id :: checks && LostItsFile(before, id, u, hash, now) ==>
          after.pastes == before.pastes.(rows := before.pastes.rows - {id}))
    && (!checks || (forall id :: id in before.pastes.rows ==> !LostItsFile(before, id, u, hash, now)) ==>
          after.pastes == before.pastes)
  }

  /** What recording answers once the files are stored. */
  ghost predicate RecordedAs(site: Site, u: Upload, now: int, after: Site, reply: UploadReply) {
    var expiry := ExpirySeconds(u.expiryMillis);
    && (expiry.Err? ==> reply == Failed(expiry.error) && after == site)
    && (expiry.Ok? && !ValidUpload(u) ==> reply == Failed(InvalidInput))
    && (expiry.Ok? && ValidUpload(u) ==>
          var folds, named := exists id :: FoldsInto(site, id, u), NameTaken(site, u, expiry.value, now);
          && (reply.Folded? <==> folds)
          && (reply == Conflict <==> !folds && named)
          && (reply == Failed(Database) <==> !folds && !named && PathHeld(site, u))
          && (reply == Accepted <==> !folds && !named && !PathHeld(site, u)))
    && (reply.Folded? ==> FoldsInto(site, reply.record.id, u) && SameRecordBefore(site, reply.record, now))
    && (reply.Accepted? ==>
          && expiry.Ok? && ValidUpload(u) && after.files == site.files && after.pastes.nextId == site.pastes.nextId + 1
          && site.pastes.nextId in after.pastes.rows
          && after.pastes.rows[site.pastes.nextId] == AcceptedRow(u, expiry.value, now))
    && after.pastes.rows.Keys <= site.pastes.rows.Keys + (if reply.Accepted? then {site.pastes.nextId} else {})
    && DropsOwnOnly(site.pastes.rows, after.pastes.rows, site.files, u, now)
  }

  /** The record in the reply is the row that was there. */
  predicate SameRecordBefore(site: Site, record: Record, now: int) {
    record.id in site.pastes.rows && Released(site.pastes.rows[record.id], record.row, now)
  }

  lemma RecordIsAnswered(site: Site, u: Upload, now: int)
    requires PastesOk(site.pastes, now)
    ensures RecordedAs(site, u, now, RecordUpload(site, u, now).0, RecordUpload(site, u, now).1)
  {
    var expiry := ExpirySeconds(u.expiryMillis);
    if expiry.Ok? {
      PersistAnswers(site.pastes, site.files, u, expiry.value, now);
    }
  }

  lemma CheckLeaves(site: Site, u: Upload, hash: string, now: int)
    requires PastesOk(site.pastes, now) && CheckDuplicate(site, u, hash, now).Proceed?
    requires hash in {u.rawHash, u.storedHash}
    ensures
      var left := site.(pastes := CheckDuplicate(site, u, hash, now).pastes);
      && AfterCheck(site, left, true, u, hash, now) && PastesOk(left.pastes, now)
      && left.pastes.nextId == site.pastes.nextId && left.pastes.rows.Keys <= site.pastes.rows.Keys
      && DropsOwnOnly(site.pastes.rows, left.pastes.rows, site.files, u, now)
  {
    CheckIsExact(site, u, hash, now);
  }

  lemma FinishIsAnswered(site: Site, u: Upload, now: int) returns (settled: Site)
    requires PastesOk(site.pastes, now)
    ensures
      var (after, reply) := FinishUpload(site, u, now);
      && (FoundLate(site, u, now) ==>
            && after.pastes == site.pastes && reply.Folded? && Answers(site, reply.record.id, u, u.storedHash, now)
            && reply.record.row == site.pastes.rows[reply.record.id])
      && (!FoundLate(site, u, now) ==>
            AfterCheck(site, settled, ChecksLate(u), u, u.storedHash, now) && RecordedAs(settled, u, now, after, reply))
    ensures !FoundLate(site, u, now) ==>
      && settled.pastes.nextId == site.pastes.nextId && settled.pastes.rows.Keys <= site.pastes.rows.Keys
      && DropsOwnOnly(site.pastes.rows, settled.pastes.rows, site.files, u, now)
  {
    settled := site;
    if ChecksLate(u) {
      CheckIsExact(site, u, u.storedHash, now);
      var glance := CheckDuplicate(site, u, u.storedHash, now);
      if glance.Proceed? {
        CheckLeaves(site, u, u.storedHash, now);
        settled := site.(pastes := glance.pastes);
        RecordIsAnswered(settled, u, now);
      }
    } else {
      RecordIsAnswered(site, u, now);
    }
  }

  /** The early check, and the site that it leaves. */
  lemma EarlyCheckIsAnswered(site: Site, u: Upload, now: int, nanos: nat) returns (glanced: Site)
    requires PastesOk(site.pastes, now)
    ensures
      var (after, reply) := UploadPaste(site, u, now, nanos);
      && (FoundEarly(site, u, now) ==>
            && after == site && reply.Folded? && Answers(site, reply.record.id, u, u.rawHash, now)
            && reply.record.row == site.pastes.rows[reply.record.id])
      && (!FoundEarly(site, u, now) ==>
            && AfterCheck(site, glanced, ChecksEarly(u), u, u.rawHash, now) && PastesOk(glanced.pastes, now)
            && (after, reply) == StoreUpload(glanced, u, now, nanos))
    ensures !FoundEarly(site, u, now) ==>
      && glanced.pastes.nextId == site.pastes.nextId && glanced.pastes.rows.Keys <= site.pastes.rows.Keys
      && DropsOwnOnly(site.pastes.rows, glanced.pastes.rows, site.files, u, now)
  {
    glanced := site;
    if ChecksEarly(u) {
      CheckIsExact(site, u, u.rawHash, now);
      var glance := CheckDuplicate(site, u, u.rawHash, now);
      if glance.Proceed? {
        CheckLeaves(site, u, u.rawHash, now);
        glanced := site.(pastes := glance.pastes);
      }
    }
  }

  /**
   Every upload: answered early with the owner's newest compatible paste of the bytes sent, if its file is
   there; refused if a file is in the way; answered late in the same way for remote files; and otherwise
   recorded, folded or refused as recording says, on the rows that the checks leave.
   */
  lemma UploadIsAnswered(site: Site, u: Upload, now: int, nanos: nat) returns (glanced: Site, settled: Site)
    requires PastesOk(site.pastes, now)
    ensures
      var (after, reply) := UploadPaste(site, u, now, nanos);
      var stored := glanced.(files := WithUpload(site.files, u));
      var early, storable := FoundEarly(site, u, now), Storable(site.files, u, nanos);
      && (early ==>
            && after == site && reply.Folded? && Answers(site, reply.record.id, u, u.rawHash, now)
            && reply.record.row == site.pastes.rows[reply.record.id])
      && (!early ==> AfterCheck(site, glanced, ChecksEarly(u), u, u.rawHash, now))
      && (!early && !storable ==> reply == Conflict && after.pastes == glanced.pastes)
      && (!early && storable && FoundLate(stored, u, now) ==>
            && after.pastes == glanced.pastes && reply.Folded? && Answers(stored, reply.record.id, u, u.storedHash, now)
            && reply.record.row == glanced.pastes.rows[reply.record.id])
      && (!early && storable && !FoundLate(stored, u, now) ==>
            AfterCheck(stored, settled, ChecksLate(u), u, u.storedHash, now) &&
            RecordedAs(settled, u, now, after, reply))
    ensures !FoundEarly(site, u, now) ==>
      && glanced.pastes.nextId == site.pastes.nextId && glanced.pastes.rows.Keys <= site.pastes.rows.Keys
      && DropsOwnOnly(site.pastes.rows, glanced.pastes.rows, site.files, u, now)
      && (Storable(site.files, u, nanos) && !FoundLate(glanced.(files := WithUpload(site.files, u)), u, now) ==>
            && settled.pastes.nextId == glanced.pastes.nextId && settled.pastes.rows.Keys <= glanced.pastes.rows.Keys
            && DropsOwnOnly(glanced.pastes.rows, settled.pastes.rows, WithUpload(site.files, u), u, now))
  {
    glanced := EarlyCheckIsAnswered(site, u, now, nanos);
    settled := glanced;
    if !FoundEarly(site, u, now) {
      StoredWhenStorable(site.files, u, nanos);
      if Storable(site.files, u, nanos) {
        settled := FinishIsAnswered(glanced.(files := WithUpload(site.files, u)), u, now);
      }
    }
  }

  lemma WithUploadAdds(files: Files, u: Upload)
    ensures files.Keys <= WithUpload(files, u).Keys
  {
  }

  /** No upload drops a row of another owner, or one whose file is there; it adds a row only if it is accepted. */
  lemma UploadSparesOthers(site: Site, u: Upload, now: int, nanos: nat)
    requires PastesOk(site.pastes, now)
    ensures
      var (after, reply) := UploadPaste(site, u, now, nanos);
      && DropsOwnOnly(site.pastes.rows, after.pastes.rows, site.files, u, now)
      && after.pastes.rows.Keys <= site.pastes.rows.Keys + (if reply.Accepted? then {site.pastes.nextId} else {})
  {
    var glanced, settled := UploadIsAnswered(site, u, now, nanos);
    var (after, reply) := UploadPaste(site, u, now, nanos);
    WithUploadAdds(site.files, u);
    if !FoundEarly(site, u, now) && Storable(site.files, u, nanos)
       && !FoundLate(glanced.(files := WithUpload(site.files, u)), u, now) {
      var files := WithUpload(site.files, u);
      DropsTwice(site.pastes.rows, glanced.pastes.rows, settled.pastes.rows, site.files, files, u, now);
      DropsTwice(site.pastes.rows, settled.pastes.rows, after.pastes.rows, site.files, files, u, now);
    }
  }

  /** The record is a row of the uploader's own, of a compatible type, and its content is the upload's. */
  predicate OwnRecord(rows: PasteRows, record: Record, u: Upload, now: int) {
    && record.id in rows && Released(rows[record.id], record.row, now)
    && record.row.owner == Some(u.owner) && record.row.contentHash in {u.rawHash, u.storedHash}
    && IsCompatibleDuplicate(u.kind, record.row.kind)
  }

  lemma OwnRecordBefore(before: PasteRows, after: PasteRows, files: Files, record: Record, u: Upload, now: int)
    requires OwnRecord(after, record, u, now) && after.Keys <= before.Keys && DropsOwnOnly(before, after, files, u, now)
    ensures OwnRecord(before, record, u, now)
  {
    assert record.id in before && Released(before[record.id], after[record.id], now);
  }

  lemma FoldedRecordIsOwn(site: Site, u: Upload, now: int, after: Site, reply: UploadReply)
    requires RecordedAs(site, u, now, after, reply) && reply.Folded?
    ensures OwnRecord(site.pastes.rows, reply.record, u, now) && reply.record.row.path in site.files
  {
  }

  /**
   A folded upload is answered with a paste of the uploader's own that was there before, of a compatible type,
   whose content is the upload's, and whose file was there when the check answered.
   */
  lemma FoldedIntoOwn(site: Site, u: Upload, now: int, nanos: nat)
    requires PastesOk(site.pastes, now) && UploadPaste(site, u, now, nanos).1.Folded?
    ensures
      var record := UploadPaste(site, u, now, nanos).1.record;
      && OwnRecord(site.pastes.rows, record, u, now) && record.row.path in WithUpload(site.files, u)
      && (FoundEarly(site, u, now) ==> Unexpired(record.row.expiresAt, now) && record.row.path in site.files)
  {
    var glanced, settled := UploadIsAnswered(site, u, now, nanos);
    var (after, reply) := UploadPaste(site, u, now, nanos);
    var rows, files := site.pastes.rows, WithUpload(site.files, u);
    if !FoundEarly(site, u, now) {
      if !FoundLate(glanced.(files := files), u, now) {
        FoldedRecordIsOwn(settled, u, now, after, reply);
        OwnRecordBefore(glanced.pastes.rows, settled.pastes.rows, files, reply.record, u, now);
      }
      OwnRecordBefore(rows, glanced.pastes.rows, site.files, reply.record, u, now);
    }
  }

  /** What an accepted upload leaves: its files, where none were, and one row that says what was uploaded. */
  lemma AcceptedIsStored(site: Site, u: Upload, now: int, nanos: nat)
    requires PastesOk(site.pastes, now) && UploadPaste(site, u, now, nanos).1.Accepted?
    ensures
      var after, expiry := UploadPaste(site, u, now, nanos).0, ExpirySeconds(u.expiryMillis);
      var id := site.pastes.nextId;
      && Storable(site.files, u, nanos) && after.files == WithUpload(site.files, u) && expiry.Ok?
      && id in after.pastes.rows && after.pastes.rows[id] == AcceptedRow(u, expiry.value, now)
      && after.pastes.nextId == id + 1
  {
    var glanced, settled := UploadIsAnswered(site, u, now, nanos);
  }
}
