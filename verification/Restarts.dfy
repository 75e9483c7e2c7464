/**
 A server's life: uploads, deletions and sweeps, and restarts that reconcile the table with a scan
 of the directory. What an upload records is what a later scan reads back, so a restart finds
 nothing to insert and changes nothing that matters.
 */
module Restarts {
  import opened Base
  import opened Text
  import opened Expiry
  import opened Pastes
  import opened Reconciliation
  import opened PasteRuns
  import opened Uploads

  // ----- the scan -----

  function ScannedKind(directory: Directory): PasteType {
    match directory
    case RootDir => File
    case OneshotDir => Oneshot
    case UrlDir => Url
    case OneshotUrlDir => OneshotUrl
    case ProtectedDir => ProtectedFile
  }

  predicate ScannedFrom(files: Files, p: NewPaste) {
    && p.path in files && files[p.path].Content? && p.owner.None?
    && p.kind == ScannedKind(p.path.directory) && p.contentHash == files[p.path].hash
    && SplitExpiry(p.path.name) == Ok(SplitName(p.filename, p.expiresAt))
  }

  /** A complete scan of the upload directory; password files beside their content are passed over. */
  predicate IsScan(files: Files, scan: seq<NewPaste>) {
    && (forall k :: 0 <= k < |scan| ==> ScannedFrom(files, scan[k]))
    && (forall path :: path in files && files[path].Content? ==> path in ScanPaths(scan))
  }

  /** What the file system says of the files besides their content. */
  datatype FileFacts = FileFacts(createdAt: Path -> int, size: Path -> nat, sidecarDigest: Path -> string)

  /** A password file of the protected directory whose content is there. */
  predicate IsPasswordSidecar(files: Files, path: Path)
    requires path in files
  {
    path.directory == ProtectedDir && files[path].PasswordHash? && Extension(path.name) == Some("password")
    && Path(path.directory, path.name[..LastDot(path.name).value]) in files
  }

  function ScanEntry(files: Files, path: Path, facts: FileFacts): Result<Option<NewPaste>>
    requires path in files
  {
    if IsPasswordSidecar(files, path) then Ok(None)
    else match SplitExpiry(path.name)
      case Err(e) => Err(e)
      case Ok(split) =>
        var hash := if files[path].Content? then files[path].hash else facts.sidecarDigest(path);
        Ok(Some(NewPaste(None, split.publicName, path, ScannedKind(path.directory), facts.createdAt(path),
                         facts.size(path),
                         split.expiresAt, hash)))
  }

  function ToScan(entry: Result<Option<NewPaste>>): seq<NewPaste> {
    if entry.Ok? && entry.value.Some? then [entry.value.value] else []
  }

  predicate Listed(files: Files, entries: seq<Path>) {
    forall k :: 0 <= k < |entries| ==> entries[k] in files
  }

  ghost predicate Collects(files: Files, entries: seq<Path>, facts: FileFacts, scan: seq<NewPaste>)
    requires Listed(files, entries)
  {
    forall p :: p in scan <==> p.path in entries && ScanEntry(files, p.path, facts) == Ok(Some(p))
  }

  lemma CollectsOneMore(files: Files, entries: seq<Path>, path: Path, facts: FileFacts, scan: seq<NewPaste>)
    requires path in files && Listed(files, entries)
    requires Collects(files, entries, facts, scan)
    ensures Collects(files, entries + [path], facts, scan + ToScan(ScanEntry(files, path, facts)))
  {
    var entry := ScanEntry(files, path, facts);
    forall p
      ensures p in scan + ToScan(entry) <==>
        p.path in entries + [path] && ScanEntry(files, p.path, facts) == Ok(Some(p))
    {
      assert p in scan + ToScan(entry) <==> p in scan || entry == Ok(Some(p));
      assert entry.Ok? && entry.value.Some? ==> entry.value.value.path == path;
    }
  }

  /** The entries in order, and how many were unreadable. */
  function ScanAll(files: Files, entries: seq<Path>, facts: FileFacts): (seq<NewPaste>, nat)
    requires Listed(files, entries)
  {
    if entries == [] then ([], 0)
    else
      var n := |entries| - 1;
      var (scan, skipped) := ScanAll(files, entries[..n], facts);
      var entry := ScanEntry(files, entries[n], facts);
      (scan + ToScan(entry), if entry.Err? then skipped + 1 else skipped)
  }

  method ScanPastes(files: Files, entries: seq<Path>, facts: FileFacts) returns (scan: seq<NewPaste>, skipped: nat)
    requires Listed(files, entries)
    ensures (scan, skipped) == ScanAll(files, entries, facts)
  {
    scan, skipped := [], 0;
    for i := 0 to |entries|
      invariant (scan, skipped) == ScanAll(files, entries[..i], facts)
    {
      assert entries[..i+1][..i] == entries[..i] && scan + [] == scan;
      var entry := ScanEntry(files, entries[i], facts);
      if entry.Err? {
        skipped := skipped + 1;
      } else if entry.value.Some? {
        scan := scan + [entry.value.value];
      }
    }
    assert entries[..|entries|] == entries;
  }

  lemma {:induction false} ScanAllCollects(files: Files, entries: seq<Path>, facts: FileFacts)
    requires Listed(files, entries)
    ensures Collects(files, entries, facts, ScanAll(files, entries, facts).0)
    ensures ScanAll(files, entries, facts).1 == 0 ==> forall path :: path in entries ==>
      ScanEntry(files, path, facts).Ok?
  {
    if entries != [] {
      var n := |entries| - 1;
      assert entries == entries[..n] + [entries[n]];
      ScanAllCollects(files, entries[..n], facts);
      CollectsOneMore(files, entries[..n], entries[n], facts, ScanAll(files, entries[..n], facts).0);
    }
  }

  /** The scan entry of a file: unowned, named and dated by its path, and otherwise as the file system says. */
  predicate EntryOf(files: Files, path: Path, facts: FileFacts, p: NewPaste)
    requires path in files
  {
    && !IsPasswordSidecar(files, path) && p.path == path && p.owner.None? && p.kind == ScannedKind(path.directory)
    && SplitExpiry(path.name) == Ok(SplitName(p.filename, p.expiresAt))
    && p.createdAt == facts.createdAt(path) && p.size == facts.size(path)
    && p.contentHash == (if files[path].Content? then files[path].hash else facts.sidecarDigest(path))
  }

  /** The entries whose names do not split, password files aside. */
  function Unreadable(files: Files, entries: seq<Path>): set<int>
    requires Listed(files, entries)
  {
    set k | 0 <= k < |entries| && !IsPasswordSidecar(files, entries[k]) && SplitExpiry(entries[k].name).Err?
  }

  lemma OneMoreUnreadable(files: Files, entries: seq<Path>, path: Path)
    requires Listed(files, entries) && path in files
    ensures |Unreadable(files, entries + [path])| == |Unreadable(files, entries)| +
      if !IsPasswordSidecar(files, path) && SplitExpiry(path.name).Err? then 1 else 0
  {
    var n, before, after := |entries|, Unreadable(files, entries), Unreadable(files, entries + [path]);
    forall k ensures k in after <==> k in before || (k == n && n in after) {
      assert 0 <= k < n ==> (entries + [path])[k] == entries[k];
    }
    if n in after {
      assert after == before + {n};
    } else {
      assert after == before;
    }
  }

  /** The scan has an entry for each readable file, saying what the file says, and no other; it counts the rest. */
  lemma {:induction false} ScanIsExact(files: Files, entries: seq<Path>, facts: FileFacts)
    requires Listed(files, entries)
    ensures
      var (scan, skipped) := ScanAll(files, entries, facts);
      && (forall p :: p in scan <==> p.path in entries && EntryOf(files, p.path, facts, p))
      && skipped == |Unreadable(files, entries)|
  {
    if entries != [] {
      var n := |entries| - 1;
      assert entries == entries[..n] + [entries[n]];
      ScanIsExact(files, entries[..n], facts);
      OneMoreUnreadable(files, entries[..n], entries[n]);
      CollectsOneMore(files, entries[..n], entries[n], facts, ScanAll(files, entries[..n], facts).0);
    }
    ScanAllCollects(files, entries, facts);
  }

  /** When nothing was skipped, and every password file has its content, the scan is complete. */
  lemma ScanIsComplete(files: Files, entries: seq<Path>, facts: FileFacts)
    requires forall path :: path in files <==> path in entries
    requires ScanAll(files, entries, facts).1 == 0
    requires forall path :: path in files && files[path].PasswordHash? ==> IsPasswordSidecar(files, path)
    ensures IsScan(files, ScanAll(files, entries, facts).0)
  {
    ScanAllCollects(files, entries, facts);
    CollectedIsScan(files, entries, facts, ScanAll(files, entries, facts).0);
  }

  lemma CollectedIsScan(files: Files, entries: seq<Path>, facts: FileFacts, scan: seq<NewPaste>)
    requires forall path :: path in files <==> path in entries
    requires forall path :: path in entries ==> ScanEntry(files, path, facts).Ok?
    requires forall path :: path in files && files[path].PasswordHash? ==> IsPasswordSidecar(files, path)
    requires Collects(files, entries, facts, scan)
    ensures IsScan(files, scan)
  {
    forall k | 0 <= k < |scan| ensures ScannedFrom(files, scan[k]) {
      assert scan[k] in scan;
    }
    forall path | path in files && files[path].Content? ensures path in ScanPaths(scan) {
      var p := ScanEntry(files, path, facts).value.value;
      assert p in scan;
      var k :| 0 <= k < |scan| && scan[k] == p;
    }
  }

  /** The name on disk is read back as the public name and the expiry it was made of. */
  predicate ReadBack(u: Upload) {
    match u.expiryMillis
    case None => !LooksExpiring(u.filename)
    case Some(millis) => 1_000_000_000 <= millis <= U128_MAX && CeilSeconds(millis).Ok?
  }

  /** If the row's file is there, a scan of it would say what the row says. */
  predicate Told(row: PasteRow, files: Files) {
    row.path in files && files[row.path].Content? ==>
      SplitExpiry(row.path.name) == Ok(SplitName(row.filename, row.expiresAt)) &&
        row.contentHash == files[row.path].hash
      && row.path.directory == DirectoryOf(row.kind)
  }

  predicate AllTold(site: Site) {
    forall id :: id in site.pastes.rows ==> Told(site.pastes.rows[id], site.files)
  }

  /** All rows are told but possibly those of the file just stored. */
  predicate ToldBut(site: Site, latest: Path) {
    forall id :: id in site.pastes.rows && site.pastes.rows[id].path != latest ==>
      Told(site.pastes.rows[id], site.files)
  }

  /** The condition is exact: no other name is read back as what it was made of. */
  lemma ReadBackIff(u: Upload)
    requires ExpirySeconds(u.expiryMillis).Ok?
    ensures ReadBack(u) <==>
      SplitExpiry(TargetPath(u).name) == Ok(SplitName(u.filename, ExpirySeconds(u.expiryMillis).value))
  {
    match u.expiryMillis
    case None => PlainRoundTrip(u.filename);
    case Some(millis) =>
      if millis >= 1_000_000_000 {
        ExpiryRoundTrip(u.filename, millis);
      } else {
        ShortExpiryIsName(u.filename, millis);
      }
  }

  lemma ShortExpiryIsName(name: string, millis: nat)
    requires millis < 1_000_000_000
    ensures SplitExpiry(StoredName(name, Some(millis))) == Ok(SplitName(StoredName(name, Some(millis)), None))
  {
    TenDigits(millis);
    NoDotInDigits(Decimal(millis));
    LastDotIs(name, Decimal(millis));
    assert StoredName(name, Some(millis))[|name| + 1..] == Decimal(millis);
  }

  // ----- what recording does to the rows -----

  predicate SameButLink(a: PasteRow, b: PasteRow) {
    a.(linkKey := None) == b.(linkKey := None)
  }

  /** Rows of before, up to released links, and possibly one new row of the paste. */
  predicate RowsRecorded(before: Table<PasteRow>, after: Table<PasteRow>, p: NewPaste, recorded: bool) {
    && (forall id :: id in after.rows && id in before.rows ==> SameButLink(before.rows[id], after.rows[id]))
    && (forall id :: id in after.rows && id !in before.rows ==> recorded && id == before.nextId)
    && (recorded ==> before.nextId in after.rows && before.nextId !in before.rows
                     && after.rows[before.nextId] ==
                       RowOf(p, after.rows[before.nextId].dedupKey, after.rows[before.nextId].linkKey))
  }

  lemma InsertRecords(t: Table<PasteRow>, p: NewPaste, now: int)
    requires Schema(t)
    ensures RowsRecorded(t, InsertPaste(t, p, now).0, p, InsertPaste(t, p, now).1.Ok?)
  {
  }

  lemma DedupRecords(t: Table<PasteRow>, p: NewPaste, now: int)
    requires Schema(t)
    ensures
      var (after, result) := InsertDeduplicated(t, p, now);
      RowsRecorded(t, after, p, result.Ok? && result.value.Inserted?)
  {
  }

  /** Deleting a row between two attempts records nothing. */
  lemma RecordsAfterDeletion(t: Table<PasteRow>, after: Table<PasteRow>, id: int, last: Table<PasteRow>, p: NewPaste,
                             recorded: bool)
    requires RowsRecorded(t, after, p, false) && after.nextId == t.nextId && t.nextId !in t.rows
    requires RowsRecorded(DeletePaste(after, id), last, p, recorded)
    requires id in t.rows && id !in last.rows
    ensures RowsRecorded(t, last, p, recorded)
  {
  }

  lemma {:induction false} RetryRecords(t: Table<PasteRow>, files: Files, p: NewPaste, now: int, passes: nat)
    requires PastesOk(t, now)
    ensures RowsRecorded(t, RetryInsert(t, files, p, now, passes).0, p,
                         RetryInsert(t, files, p, now, passes).1.Recorded?)
    ensures PastesOk(RetryInsert(t, files, p, now, passes).0, now)
    decreases passes
  {
    if passes > 0 {
      DedupRecords(t, p, now);
      InsertKeepsPastesOk(t, p, now);
      var (after, result) := InsertDeduplicated(t, p, now);
      if result.Ok? && result.value.Duplicate? && result.value.record.row.path !in files {
        var id := result.value.record.id;
        DeleteKeepsPastesOk(after, id, p.path, now);
        RetryRecords(DeletePaste(after, id), files, p, now, passes - 1);
        var (last, persisted) := RetryInsert(DeletePaste(after, id), files, p, now, passes - 1);
        RecordsAfterDeletion(t, after, id, last, p, persisted.Recorded?);
      }
    }
  }

  lemma PersistRecords(t: Table<PasteRow>, files: Files, p: NewPaste, deduplicate: bool, now: int)
    requires PastesOk(t, now)
    ensures
      var (after, persisted) := Persist(t, files, p, deduplicate, now);
      RowsRecorded(t, after, p, persisted.Recorded?) && PastesOk(after, now)
  {
    if deduplicate {
      RetryRecords(t, files, p, now, PERSIST_PASSES);
    } else {
      InsertRecords(t, p, now);
      InsertKeepsPastesOk(t, p, now);
    }
  }

  // ----- every operation keeps the agreement -----

  lemma RowsStayTold(before: Table<PasteRow>, after: Table<PasteRow>, p: NewPaste, recorded: bool, files: Files,
                     left: Files)
    requires RowsRecorded(before, after, p, recorded) && UniquePaths(after.rows)
    requires forall id :: id in before.rows && before.rows[id].path != p.path ==> Told(before.rows[id], files)
    requires if recorded then left == files else left == WithoutPair(files, p.path)
    requires Told(RowOf(p, None, None), files)
    ensures forall id :: id in after.rows ==> Told(after.rows[id], left)
  {
    forall id | id in after.rows ensures Told(after.rows[id], left) {
      assert id in before.rows ==> SameButLink(before.rows[id], after.rows[id]);
      assert recorded && id != before.nextId ==> after.rows[id].path != p.path;
    }
  }

  lemma NewRowIsTold(u: Upload, files: Files)
    requires ReadBack(u) && TargetPath(u) in files && files[TargetPath(u)] == Content(u.storedHash)
    ensures ExpirySeconds(u.expiryMillis).Ok?
    ensures Told(RowOf(PasteOf(u, ExpirySeconds(u.expiryMillis).value), None, None), files)
  {
    ReadBackIff(u);
  }

  lemma RecordTells(site: Site, u: Upload, now: int)
    requires PastesOk(site.pastes, now) && ToldBut(site, TargetPath(u)) && ReadBack(u)
    requires TargetPath(u) in site.files && site.files[TargetPath(u)] == Content(u.storedHash)
    ensures AllTold(RecordUpload(site, u, now).0) && PastesOk(RecordUpload(site, u, now).0.pastes, now)
  {
    NewRowIsTold(u, site.files);
    var p := PasteOf(u, ExpirySeconds(u.expiryMillis).value);
    var deduplicate := Suppresses(u) && DedupCategory(u.kind).Some?;
    PersistRecords(site.pastes, site.files, p, deduplicate, now);
    var (pastes, persisted) := Persist(site.pastes, site.files, p, deduplicate, now);
    var left := if persisted.Recorded? then site.files else WithoutPair(site.files, p.path);
    RowsStayTold(site.pastes, pastes, p, persisted.Recorded?, site.files, left);
    assert RecordUpload(site, u, now).0 == Site(left, pastes);
  }

  lemma GlanceTells(site: Site, u: Upload, hash: string, now: int)
    requires PastesOk(site.pastes, now) && CheckDuplicate(site, u, hash, now).Proceed?
    ensures PastesOk(CheckDuplicate(site, u, hash, now).pastes, now)
    ensures forall id :: id in CheckDuplicate(site, u, hash, now).pastes.rows ==>
      id in site.pastes.rows && CheckDuplicate(site, u, hash, now).pastes.rows[id] == site.pastes.rows[id]
  {
  }

  lemma FinishTells(site: Site, u: Upload, now: int)
    requires PastesOk(site.pastes, now) && ToldBut(site, TargetPath(u)) && ReadBack(u)
    requires TargetPath(u) in site.files && site.files[TargetPath(u)] == Content(u.storedHash)
    ensures AllTold(FinishUpload(site, u, now).0) && PastesOk(FinishUpload(site, u, now).0.pastes, now)
  {
    if Suppresses(u) && u.kind.RemoteFile? {
      var glance := CheckDuplicate(site, u, u.storedHash, now);
      if glance.Proceed? {
        GlanceTells(site, u, u.storedHash, now);
        RecordTells(site.(pastes := glance.pastes), u, now);
      }
    } else {
      RecordTells(site, u, now);
    }
  }

  lemma StoreTells(site: Site, u: Upload, now: int, nanos: nat)
    requires PastesOk(site.pastes, now) && AllTold(site) && ReadBack(u)
    ensures AllTold(StoreUpload(site, u, now, nanos).0) && PastesOk(StoreUpload(site, u, now, nanos).0.pastes, now)
  {
    var (files, stored) := StoreEntry(site.files, u, nanos);
    StoredContent(site.files, u, nanos);
    if stored {
      FinishTells(site.(files := files), u, now);
    }
  }

  lemma UploadTells(site: Site, u: Upload, now: int, nanos: nat)
    requires PastesOk(site.pastes, now) && AllTold(site) && ReadBack(u)
    ensures AllTold(UploadPaste(site, u, now, nanos).0) && PastesOk(UploadPaste(site, u, now, nanos).0.pastes, now)
  {
    if Suppresses(u) && (u.kind.File? || u.kind.Url?) {
      var glance := CheckDuplicate(site, u, u.rawHash, now);
      if glance.Proceed? {
        GlanceTells(site, u, u.rawHash, now);
        StoreTells(site.(pastes := glance.pastes), u, now, nanos);
      }
    } else {
      StoreTells(site, u, now, nanos);
    }
  }

  lemma {:induction false} SweepTells(site: Site, expired: seq<Path>, now: int)
    requires PastesOk(site.pastes, now) && AllTold(site)
    ensures AllTold(Sweep(site, expired)) && PastesOk(Sweep(site, expired).pastes, now)
  {
    if expired != [] {
      var n := |expired| - 1;
      SweepTells(site, expired[..n], now);
      DeleteKeepsPastesOk(Sweep(site, expired[..n]).pastes, 0, expired[n], now);
    }
  }

  lemma DeleteTells(site: Site, filename: string, requester: Option<int>, globalDelete: bool, now: int)
    requires PastesOk(site.pastes, now) && AllTold(site)
    ensures
      var after := DeleteUpload(site, filename, requester, globalDelete, now).0;
      AllTold(after) && PastesOk(after.pastes, now)
  {
    var first := FirstRecord(site.pastes.rows, Deletable(site, filename, now));
    if first.Some? {
      DeleteKeepsPastesOk(site.pastes, first.value, Path(RootDir, ""), now);
    }
  }

  // ----- restarts -----

  /** A complete scan of a site in agreement finds the files as they were stored. */
  lemma ScanOfSiteIsFaithful(site: Site, scan: seq<NewPaste>)
    requires AllTold(site) && IsScan(site.files, scan)
    ensures FaithfulScan(site.pastes.rows, scan)
  {
    forall id, k | id in site.pastes.rows && 0 <= k < |scan| && scan[k].path == site.pastes.rows[id].path
      ensures SameContent(site.pastes.rows[id], scan[k])
    {
      assert ScannedFrom(site.files, scan[k]) && Told(site.pastes.rows[id], site.files);
    }
  }

  predicate HasFile(site: Site, id: int) {
    id in site.pastes.rows && site.pastes.rows[id].path in site.files && site.files[site.pastes.rows[id].path].Content?
  }

  /** The rows whose file is gone. */
  function Orphans(site: Site): set<int> {
    set id | id in site.pastes.rows && !HasFile(site, id)
  }

  lemma ScannedIffStored(site: Site, scan: seq<NewPaste>, path: Path)
    requires IsScan(site.files, scan)
    ensures path in ScanPaths(scan) <==> path in site.files && site.files[path].Content?
  {
    if path in ScanPaths(scan) {
      var k :| 0 <= k < |scan| && scan[k].path == path;
      assert ScannedFrom(site.files, scan[k]);
    }
  }

  lemma NothingToInsert(site: Site, scan: seq<NewPaste>)
    requires Tracked(site) && IsScan(site.files, scan)
    ensures ScanPaths(scan) <= Paths(site.pastes.rows) && Absent(site.pastes.rows, scan) == Orphans(site)
  {
    var rows := site.pastes.rows;
    forall path | path in ScanPaths(scan) ensures path in Paths(rows) {
      ScannedIffStored(site, scan, path);
      var id :| id in rows && rows[id].path == path;
    }
    var orphans, absent := Orphans(site), Absent(rows, scan);
    forall id ensures id in orphans <==> id in absent {
      if id in rows {
        ScannedIffStored(site, scan, rows[id].path);
      }
    }
    assert orphans == absent;
  }

  lemma KeysAfterRestart(t: Table<PasteRow>, after: PasteRows, scan: seq<NewPaste>, now: int)
    requires Reconciled(t, after, scan, now) && ScanPaths(scan) <= Paths(t.rows) && UniquePaths(after)
    ensures after.Keys == t.rows.Keys - Absent(t.rows, scan)
  {
    forall id | id in after ensures id in t.rows {
      assert after[id].path in Paths(after);
      var known :| known in t.rows && t.rows[known].path == after[id].path;
      assert known in after && SameIdentity(t.rows[known], after[known]);
    }
    var left := t.rows.Keys - Absent(t.rows, scan);
    forall id ensures id in after.Keys <==> id in left {
    }
    assert after.Keys == left;
  }

  lemma RestartTally(site: Site, scan: seq<NewPaste>, now: int)
    requires Tracked(site) && IsScan(site.files, scan) && Reconcile(site.pastes, scan, now).1.Ok?
    ensures Reconcile(site.pastes, scan, now).1 == Ok(Tally(0, |Orphans(site)|))
  {
    ReconcileIsExact(site.pastes, scan, now);
    NothingToInsert(site, scan);
    assert ScanPaths(scan) - Paths(site.pastes.rows) == {};
    DropPaths(site.pastes.rows, scan);
  }

  lemma RestartKeys(site: Site, scan: seq<NewPaste>, now: int)
    requires Tracked(site) && IsScan(site.files, scan) && Reconcile(site.pastes, scan, now).1.Ok?
    ensures Reconcile(site.pastes, scan, now).0.rows.Keys == site.pastes.rows.Keys - Orphans(site)
  {
    ReconcileIsExact(site.pastes, scan, now);
    NothingToInsert(site, scan);
    KeysAfterRestart(site.pastes, Reconcile(site.pastes, scan, now).0.rows, scan, now);
  }

  lemma RestartContents(site: Site, scan: seq<NewPaste>, now: int)
    requires Tracked(site) && AllTold(site) && IsScan(site.files, scan) && Reconcile(site.pastes, scan, now).1.Ok?
    ensures Faithful(site.pastes.rows, Reconcile(site.pastes, scan, now).0.rows)
  {
    var rows := site.pastes.rows;
    ScanOfSiteIsFaithful(site, scan);
    ScanIsFaithful(site.pastes, site.pastes.(rows := rows - Absent(rows, scan)), scan, now);
  }

  /**
   A restart after a complete scan inserts nothing and removes exactly the rows whose file is gone;
   a row that stays keeps its identity, owner, name, expiry, content, category and link.
   */
  lemma RestartIsExact(site: Site, scan: seq<NewPaste>, now: int)
    requires Tracked(site) && AllTold(site) && IsScan(site.files, scan)
    requires Reconcile(site.pastes, scan, now).1.Ok?
    ensures
      var (after, result) := Reconcile(site.pastes, scan, now);
      && result == Ok(Tally(0, |Orphans(site)|))
      && after.rows.Keys == site.pastes.rows.Keys - Orphans(site)
      && forall id :: id in after.rows ==> SameRowContent(site.pastes.rows[id], after.rows[id])
  {
    RestartTally(site, scan, now);
    RestartKeys(site, scan, now);
    RestartContents(site, scan, now);
    var after := Reconcile(site.pastes, scan, now).0.rows;
    forall id | id in after ensures SameRowContent(site.pastes.rows[id], after[id]) {
      assert id in after.Keys;
    }
  }

  lemma ScannedRowIsTold(row: PasteRow, scan: seq<NewPaste>, files: Files)
    requires AsLastScanned(scan, row) && IsScan(files, scan)
    ensures Told(row, files)
  {
    var k :| 0 <= k < |scan| && Describes(scan[k], row);
    assert ScannedFrom(files, scan[k]);
  }

  lemma ScannedRowsAreTold(t: Table<PasteRow>, after: PasteRows, scan: seq<NewPaste>, files: Files, now: int)
    requires Reconciled(t, after, scan, now) && IsScan(files, scan)
    ensures forall id :: id in after ==> Told(after[id], files)
    ensures forall path :: path in files && files[path].Content? ==> PathTaken(after, path)
  {
    forall id | id in after ensures Told(after[id], files) {
      ScannedRowIsTold(after[id], scan, files);
    }
    forall path | path in files && files[path].Content? ensures PathTaken(after, path) {
      assert path in Paths(after);
    }
  }

  lemma RestartTells(site: Site, scan: seq<NewPaste>, now: int)
    requires PastesOk(site.pastes, now) && Tracked(site) && AllTold(site) && IsScan(site.files, scan)
    ensures
      var after := Reconcile(site.pastes, scan, now).0;
      AllTold(site.(pastes := after)) && PastesOk(after, now) && Tracked(site.(pastes := after))
  {
    var after := Reconcile(site.pastes, scan, now).0;
    ScanOfSiteIsFaithful(site, scan);
    ScanKeepsPastesOk(site.pastes, scan, now);
    ReconcileIsExact(site.pastes, scan, now);
    if Reconcile(site.pastes, scan, now).1.Ok? {
      ScannedRowsAreTold(site.pastes, after.rows, scan, site.files, now);
    }
  }

  // ----- restarts after partial scans -----

  /** Whatever the scan read of the upload directory. */
  predicate IsPartialScan(files: Files, scan: seq<NewPaste>) {
    forall k :: 0 <= k < |scan| ==> ScannedFrom(files, scan[k])
  }

  /** Every row whose file is there was scanned, or is visible and so listed. */
  ghost predicate NothingHidden(site: Site, scan: seq<NewPaste>, listedAt: int) {
    forall id :: HasFile(site, id) && site.pastes.rows[id].path !in ScanPaths(scan) ==>
      Visible(site.pastes.rows, id, listedAt)
  }

  /**
   The exact condition: a restart after a partial scan leaves no file without a row if and only if nothing is
   hidden.
   */
  lemma PartialRestartTracksIff(site: Site, scan: seq<NewPaste>, existing: seq<Record>, listedAt: int, now: int)
    requires Tracked(site) && ListsVisible(existing, site.pastes.rows, listedAt)
    requires Reconcile(site.pastes, Retained(scan, existing), now).1.Ok?
    ensures Tracked(site.(pastes := Reconcile(site.pastes, Retained(scan, existing), now).0)) <==>
      NothingHidden(site, scan, listedAt)
  {
    var after := Reconcile(site.pastes, Retained(scan, existing), now).0;
    ReconcileIsExact(site.pastes, Retained(scan, existing), now);
    RetainedPaths(scan, existing);
    TakenIffRetained(site.pastes, after.rows, Retained(scan, existing), now);
    if NothingHidden(site, scan, listedAt) {
      forall path | path in site.files && site.files[path].Content? ensures PathTaken(after.rows, path) {
        var id :| id in site.pastes.rows && site.pastes.rows[id].path == path;
        assert HasFile(site, id);
        ListedIffVisible(site.pastes.rows, existing, listedAt, id);
      }
    }
    if Tracked(site.(pastes := after)) {
      forall id | HasFile(site, id) && site.pastes.rows[id].path !in ScanPaths(scan)
        ensures Visible(site.pastes.rows, id, listedAt)
      {
        assert PathTaken(after.rows, site.pastes.rows[id].path);
        ListedIffVisible(site.pastes.rows, existing, listedAt, id);
      }
    }
  }

  lemma TakenIffRetained(t: Table<PasteRow>, after: PasteRows, scan: seq<NewPaste>, now: int)
    requires Reconciled(t, after, scan, now)
    ensures forall path :: PathTaken(after, path) <==> path in ScanPaths(scan)
  {
    forall path ensures PathTaken(after, path) <==> path in Paths(after) {
    }
  }

  /** An entry of the completed scan says what the row of its path says. */
  lemma RetainedEntryIsFaithful(site: Site, scan: seq<NewPaste>, existing: seq<Record>, listedAt: int, p: NewPaste,
      id: int)
    requires AllTold(site) && Schema(site.pastes) && IsPartialScan(site.files, scan)
    requires ListsVisible(existing, site.pastes.rows, listedAt) && Restates(scan, existing, p)
    requires id in site.pastes.rows && p.path == site.pastes.rows[id].path
    ensures SameContent(site.pastes.rows[id], p)
  {
    if p in scan {
      var k :| 0 <= k < |scan| && scan[k] == p;
      assert ScannedFrom(site.files, scan[k]) && Told(site.pastes.rows[id], site.files);
    } else {
      var i :| 0 <= i < |existing| && p == AsNew(existing[i].row);
      assert existing[i].row == site.pastes.rows[existing[i].id] && existing[i].id == id;
    }
  }

  lemma RetainedIsFaithful(site: Site, scan: seq<NewPaste>, existing: seq<Record>, listedAt: int)
    requires AllTold(site) && Schema(site.pastes) && IsPartialScan(site.files, scan)
    requires ListsVisible(existing, site.pastes.rows, listedAt)
    ensures FaithfulScan(site.pastes.rows, Retained(scan, existing))
  {
    var rows, retained := site.pastes.rows, Retained(scan, existing);
    forall k | 0 <= k < |retained| ensures Restates(scan, existing, retained[k]) {
      RetainedRestates(scan, existing, retained[k]);
    }
    forall id, k | id in rows && 0 <= k < |retained| && retained[k].path == rows[id].path
      ensures SameContent(rows[id], retained[k])
    {
      RetainedEntryIsFaithful(site, scan, existing, listedAt, retained[k], id);
    }
    forall k | 0 <= k < |retained| && retained[k].path !in Paths(rows) ensures retained[k].owner.None? {
      UnknownEntryIsScanned(site, scan, existing, listedAt, retained[k]);
    }
  }

  lemma UnknownEntryIsScanned(site: Site, scan: seq<NewPaste>, existing: seq<Record>, listedAt: int, p: NewPaste)
    requires IsPartialScan(site.files, scan) && ListsVisible(existing, site.pastes.rows, listedAt)
    requires Restates(scan, existing, p) && p.path !in Paths(site.pastes.rows)
    ensures p.owner.None?
  {
    forall i | 0 <= i < |existing| ensures existing[i].row.path != p.path {
      assert existing[i].row.path in Paths(site.pastes.rows);
    }
    var k :| 0 <= k < |scan| && scan[k] == p;
    assert ScannedFrom(site.files, scan[k]);
  }

  /** A row described by the completed scan is told, because what describes it is. */
  lemma RetainedRowIsTold(site: Site, scan: seq<NewPaste>, existing: seq<Record>, listedAt: int, row: PasteRow)
    requires AllTold(site) && IsPartialScan(site.files, scan) && ListsVisible(existing, site.pastes.rows, listedAt)
    requires AsLastScanned(Retained(scan, existing), row)
    ensures Told(row, site.files)
  {
    var retained := Retained(scan, existing);
    var k :| 0 <= k < |retained| && Describes(retained[k], row);
    RetainedRestates(scan, existing, retained[k]);
    if retained[k] in scan {
      var i :| 0 <= i < |scan| && scan[i] == retained[k];
      assert ScannedFrom(site.files, scan[i]);
    } else {
      var i :| 0 <= i < |existing| && retained[k] == AsNew(existing[i].row);
      assert Told(site.pastes.rows[existing[i].id], site.files);
    }
  }

  lemma PartialRestartTells(site: Site, scan: seq<NewPaste>, existing: seq<Record>, listedAt: int, now: int)
    requires PastesOk(site.pastes, now) && Tracked(site) && AllTold(site) && IsPartialScan(site.files, scan)
    requires ListsVisible(existing, site.pastes.rows, listedAt) && NothingHidden(site, scan, listedAt)
    ensures
      var after := Reconcile(site.pastes, Retained(scan, existing), now).0;
      AllTold(site.(pastes := after)) && PastesOk(after, now) && Tracked(site.(pastes := after))
  {
    var retained := Retained(scan, existing);
    var after := Reconcile(site.pastes, retained, now).0;
    RetainedIsFaithful(site, scan, existing, listedAt);
    ScanKeepsPastesOk(site.pastes, retained, now);
    if Reconcile(site.pastes, retained, now).1.Ok? {
      PartialRestartTracksIff(site, scan, existing, listedAt, now);
      ReconcileIsExact(site.pastes, retained, now);
      forall id | id in after.rows ensures Told(after.rows[id], site.files) {
        RetainedRowIsTold(site, scan, existing, listedAt, after.rows[id]);
      }
    }
  }

  // ----- whole lives -----

  datatype LifeEvent =
    | Serve(event: SiteEvent)
    | Restart(at: int, scan: seq<NewPaste>)
    | PartialRestart(at: int, scan: seq<NewPaste>, existing: seq<Record>, listedAt: int)

  function TimeOf(e: LifeEvent): int {
    if e.Serve? then e.event.now else e.at
  }

  ghost function LifeStep(site: Site, e: LifeEvent): Site {
    match e
    case Serve(event) => SiteStep(site, event)
    case Restart(at, scan) => site.(pastes := Reconcile(site.pastes, scan, at).0)
    case PartialRestart(at, scan, existing, _) =>
      site.(pastes := Reconcile(site.pastes, Retained(scan, existing), at).0)
  }

  ghost function Life(site: Site, es: seq<LifeEvent>): Site {
    if es == [] then site else LifeStep(Life(site, es[..|es|-1]), es[|es|-1])
  }

  predicate LifeClock(es: seq<LifeEvent>, start: int) {
    (forall i, j :: 0 <= i < j < |es| ==> TimeOf(es[i]) <= TimeOf(es[j])) && (es != [] ==> start <= TimeOf(es[0]))
  }

  function LifeTime(es: seq<LifeEvent>, start: int): int {
    if es == [] then start else TimeOf(es[|es|-1])
  }

  /**
   Uploads have names that are read back, and a restart scans the directory as it then is. If the scan is
   partial, the restart lists the visible rows beside it, and no expired file that is still there is unscanned.
   */
  ghost predicate Regular(site: Site, e: LifeEvent) {
    match e
    case Serve(event) => event.op.Uploading? ==> ReadBack(event.op.upload)
    case Restart(at, scan) => IsScan(site.files, scan)
    case PartialRestart(at, scan, existing, listedAt) =>
      IsPartialScan(site.files, scan) && ListsVisible(existing, site.pastes.rows, listedAt)
      && NothingHidden(site, scan, listedAt)
  }

  ghost predicate RegularLife(site: Site, es: seq<LifeEvent>) {
    forall k :: 0 <= k < |es| ==> Regular(Life(site, es[..k]), es[k])
  }

  ghost predicate Agrees(site: Site, now: int) {
    Tracked(site) && AllTold(site) && PastesOk(site.pastes, now)
  }

  lemma ServeKeepsAgreement(site: Site, e: SiteEvent)
    requires Agrees(site, e.now) && (e.op.Uploading? ==> ReadBack(e.op.upload))
    ensures Agrees(SiteStep(site, e), e.now)
  {
    match e.op
    case Uploading(u, nanos) =>
      UploadTracks(site, u, e.now, nanos);
      UploadTells(site, u, e.now, nanos);
    case Deleting(filename, requester, globalDelete) =>
      DeleteTracks(site, filename, requester, globalDelete, e.now);
      DeleteTells(site, filename, requester, globalDelete, e.now);
    case Sweeping(expired) =>
      SweepTracks(site, expired);
      SweepTells(site, expired, e.now);
  }

  lemma StepKeepsAgreement(site: Site, e: LifeEvent, before: int)
    requires Agrees(site, before) && before <= TimeOf(e) && Regular(site, e)
    ensures Agrees(LifeStep(site, e), TimeOf(e))
  {
    assert PastesOk(site.pastes, TimeOf(e));
    match e
    case Serve(event) => ServeKeepsAgreement(site, event);
    case Restart(at, scan) => RestartTells(site, scan, at);
    case PartialRestart(at, scan, existing, listedAt) => PartialRestartTells(site, scan, existing, listedAt, at);
  }

  lemma RegularPrefix(site: Site, es: seq<LifeEvent>)
    requires es != [] && RegularLife(site, es)
    ensures RegularLife(site, es[..|es|-1])
  {
    var n := |es| - 1;
    forall k | 0 <= k < n ensures Regular(Life(site, es[..n][..k]), es[..n][k]) {
      assert es[..n][..k] == es[..k] && es[..n][k] == es[k];
    }
  }

  /** What agreement means to the users of the table. */
  lemma AgreementServes(site: Site, now: int)
    requires Agrees(site, now)
    ensures OneOwnedPerFilename(site.pastes.rows, now) && OneKeyedPerContent(site.pastes.rows)
    ensures forall path :: path in site.files && site.files[path].Content? ==> |WithPath(site.pastes.rows, path)| == 1
  {
    TrackedOnce(site);
  }

  /**
   Throughout a server's life, restarts included, every stored file has exactly one row and that row
   tells what a scan would; a public filename has at most one visible owned row, and an owner's content
   at most one keyed row.
   */
  lemma {:induction false} EveryLifeAgrees(site: Site, es: seq<LifeEvent>, start: int)
    requires Agrees(site, start) && LifeClock(es, start) && RegularLife(site, es)
    ensures Agrees(Life(site, es), LifeTime(es, start))
    ensures
      var after := Life(site, es);
      && OneOwnedPerFilename(after.pastes.rows, LifeTime(es, start)) && OneKeyedPerContent(after.pastes.rows)
      && forall path :: path in after.files && after.files[path].Content? ==> |WithPath(after.pastes.rows, path)| == 1
  {
    if es != [] {
      var n := |es| - 1;
      RegularPrefix(site, es);
      EveryLifeAgrees(site, es[..n], start);
      StepKeepsAgreement(Life(site, es[..n]), es[n], LifeTime(es[..n], start));
    }
    AgreementServes(Life(site, es), LifeTime(es, start));
  }

  // ----- names that are not read back -----

  /** The row and the file of an upload that was accepted. */
  lemma AcceptedRow(site: Site, u: Upload, now: int) returns (id: int)
    requires PastesOk(site.pastes, now) && RecordUpload(site, u, now).1.Accepted?
    ensures ExpirySeconds(u.expiryMillis).Ok?
    ensures
      var after := RecordUpload(site, u, now).0;
      && after.files == site.files && id in after.pastes.rows && after.pastes.rows[id].path == TargetPath(u)
      && after.pastes.rows[id].filename == u.filename &&
        Ok(after.pastes.rows[id].expiresAt) == ExpirySeconds(u.expiryMillis)
  {
    id := site.pastes.nextId;
    var p := PasteOf(u, ExpirySeconds(u.expiryMillis).value);
    PersistRecords(site.pastes, site.files, p, Suppresses(u) && DedupCategory(u.kind).Some?, now);
  }

  lemma AcceptedUpload(site: Site, u: Upload, now: int, nanos: nat) returns (id: int)
    requires PastesOk(site.pastes, now) && UploadPaste(site, u, now, nanos).1.Accepted?
    ensures ExpirySeconds(u.expiryMillis).Ok?
    ensures
      var after := UploadPaste(site, u, now, nanos).0;
      && TargetPath(u) in after.files && after.files[TargetPath(u)].Content?
      && id in after.pastes.rows && after.pastes.rows[id].path == TargetPath(u)
      && after.pastes.rows[id].filename == u.filename &&
        Ok(after.pastes.rows[id].expiresAt) == ExpirySeconds(u.expiryMillis)
  {
    var early := Suppresses(u) && (u.kind.File? || u.kind.Url?);
    var glanced := if early then site.(pastes := CheckDuplicate(site, u, u.rawHash, now).pastes) else site;
    if early {
      GlanceTells(site, u, u.rawHash, now);
    }
    StoredContent(site.files, u, nanos);
    var stored := glanced.(files := StoreEntry(site.files, u, nanos).0);
    var late := Suppresses(u) && u.kind.RemoteFile?;
    var recorded := if late then stored.(pastes := CheckDuplicate(stored, u, u.storedHash, now).pastes) else stored;
    if late {
      GlanceTells(stored, u, u.storedHash, now);
    }
    id := AcceptedRow(recorded, u, now);
  }

  /** An accepted upload keeps directory and table in agreement exactly when its name is read back. */
  lemma AcceptedUploadAgreesIff(site: Site, u: Upload, now: int, nanos: nat)
    requires Agrees(site, now) && UploadPaste(site, u, now, nanos).1.Accepted?
    ensures Agrees(UploadPaste(site, u, now, nanos).0, now) <==> ReadBack(u)
  {
    if ReadBack(u) {
      UploadTracks(site, u, now, nanos);
      UploadTells(site, u, now, nanos);
    } else {
      var id := AcceptedUpload(site, u, now, nanos);
      var after := UploadPaste(site, u, now, nanos).0;
      ReadBackIff(u);
      assert !Told(after.pastes.rows[id], after.files);
    }
  }

  predicate Renamed(row: PasteRow, u: Upload) {
    row.path == TargetPath(u) && row.filename != u.filename && row.expiresAt.Some?
    && SplitExpiry(u.filename) == Ok(SplitName(row.filename, row.expiresAt))
  }

  lemma ScannedNameIsRead(row: PasteRow, scan: seq<NewPaste>, files: Files)
    requires AsLastScanned(scan, row) && IsScan(files, scan)
    ensures SplitExpiry(row.path.name) == Ok(SplitName(row.filename, row.expiresAt))
  {
    var k :| 0 <= k < |scan| && Describes(scan[k], row);
    assert ScannedFrom(files, scan[k]);
  }

  lemma ExpiringNameIsCut(name: string, split: SplitName)
    requires LooksExpiring(name) && SplitExpiry(name) == Ok(split)
    ensures split.publicName != name && split.expiresAt.Some?
  {
    assert |split.publicName| < |name|;
  }

  lemma RowAtPath(t: Table<PasteRow>, after: PasteRows, scan: seq<NewPaste>, path: Path, now: int) returns (id: int)
    requires Reconciled(t, after, scan, now) && path in ScanPaths(scan)
    ensures id in after && after[id].path == path && AsLastScanned(scan, after[id])
  {
    assert path in Paths(after);
    id :| id in after && after[id].path == path;
  }

  /** What a restart makes of a plain upload whose name ends like an expiry: a shorter name, and that expiry. */
  lemma MisreadUploadIsRenamed(site: Site, u: Upload, scan: seq<NewPaste>, later: int) returns (id: int)
    requires Schema(site.pastes) && IsScan(site.files, scan) && Reconcile(site.pastes, scan, later).1.Ok?
    requires u.expiryMillis.None? && LooksExpiring(u.filename)
    requires TargetPath(u) in site.files && site.files[TargetPath(u)].Content?
    ensures id in Reconcile(site.pastes, scan, later).0.rows &&
      Renamed(Reconcile(site.pastes, scan, later).0.rows[id], u)
  {
    ReconcileIsExact(site.pastes, scan, later);
    id := RowAtPath(site.pastes, Reconcile(site.pastes, scan, later).0.rows, scan, TargetPath(u), later);
    var row := Reconcile(site.pastes, scan, later).0.rows[id];
    ScannedNameIsRead(row, scan, site.files);
    ExpiringNameIsCut(u.filename, SplitName(row.filename, row.expiresAt));
  }
}
