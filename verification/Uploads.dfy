/** Uploads, deletions and expiry sweeps: the upload directory and the paste table together. */
module Uploads {
  import opened Base
  import opened Text
  import opened Expiry
  import opened Siblings
  import opened Pastes
  import opened Reconciliation
  import opened PasteRuns

  /** A file on disk: paste content, or the password hash beside it. */
  datatype Entry = Content(hash: string) | PasswordHash

  type Files = map<Path, Entry>

  datatype Site = Site(files: Files, pastes: Table<PasteRow>)

  function SidecarOf(path: Path): Path {
    Path(path.directory, SidecarName(path.name))
  }

  function DirectoryNames(files: Files, directory: Directory): set<string> {
    set path | path in files && path.directory == directory :: path.name
  }

  /** One uploaded part, named and hashed; `rawHash` is of the bytes sent, `storedHash` of the bytes written. */
  datatype Upload = Upload(
    owner: int,
    kind: PasteType,
    filename: string,
    expiryMillis: Option<nat>,
    rawHash: string,
    storedHash: string,
    size: nat,
    createdAt: int,
    suppressDuplicates: bool)

  datatype UploadReply = Accepted | Folded(record: Record) | Conflict | Failed(error: StoreError)

  // ----- storing the file -----

  function TargetPath(u: Upload): Path {
    Path(DirectoryOf(u.kind), StoredName(u.filename, u.expiryMillis))
  }

  predicate IsUrl(kind: PasteType) {
    kind.Url? || kind.OneshotUrl?
  }

  /** Removing a file and the password file beside it. */
  function WithoutPair(files: Files, path: Path): Files {
    files - {path, SidecarOf(path)}
  }

  /**
   Exclusive creation, sidecar first; None when a name is taken. Files other than URLs also yield to a live
   sibling.
   */
  ghost function StoreEntry(files: Files, u: Upload, nanos: nat): (Files, bool) {
    var path := TargetPath(u);
    var names := DirectoryNames(files, path.directory);
    if IsUrl(u.kind) then
      if path in files then (files, false) else (files[path := Content(u.storedHash)], true)
    else if GlobMatch(names, u.filename, nanos) in names then (files, false)
    else if u.kind.ProtectedFile? && SidecarOf(path) in files then (files, false)
    else
      var locked := if u.kind.ProtectedFile? then files[SidecarOf(path) := PasswordHash] else files;
      if path in files then (locked - {SidecarOf(path)}, false) else (locked[path := Content(u.storedHash)], true)
  }

  // ----- recording the metadata -----

  datatype Persisted = Recorded | Existing(record: Record) | Refused(error: StoreError) | GaveUp

  /** A stale row that wins over the insert is deleted, and the insert tried again. */
  ghost function RetryInsert(t: Table<PasteRow>, files: Files, p: NewPaste, now: int,
                             passes: nat): (Table<PasteRow>, Persisted)
    decreases passes
  {
    if passes == 0 then (t, GaveUp)
    else match InsertDeduplicated(t, p, now)
      case (after, Err(e)) => (after, Refused(e))
      case (after, Ok(Inserted(_))) => (after, Recorded)
      case (after, Ok(Duplicate(record))) =>
        if record.row.path in files then (after, Existing(record))
        else RetryInsert(DeletePaste(after, record.id), files, p, now, passes - 1)
  }

  const PERSIST_PASSES: nat := 3

  ghost function Persist(t: Table<PasteRow>, files: Files, p: NewPaste, deduplicate: bool,
                         now: int): (Table<PasteRow>, Persisted) {
    if deduplicate then RetryInsert(t, files, p, now, PERSIST_PASSES)
    else match InsertPaste(t, p, now)
      case (after, Ok(_)) => (after, Recorded)
      case (after, Err(e)) => (after, Refused(e))
  }

  // ----- the optimistic duplicate check -----

  /** An unexpired paste of this owner with this content. */
  predicate OwnsContent(row: PasteRow, owner: int, hash: string, now: int) {
    row.owner == Some(owner) && row.contentHash == hash && Unexpired(row.expiresAt, now)
  }

  predicate NewestOfContent(rows: PasteRows, id: int, owner: int, hash: string, now: int) {
    && id in rows && OwnsContent(rows[id], owner, hash, now)
    && forall other :: other in rows && OwnsContent(rows[other], owner, hash, now) ==>
      || rows[other].createdAt < rows[id].createdAt
      || (rows[other].createdAt == rows[id].createdAt && id <= other)
  }

  function OwnerDuplicates(rows: PasteRows, owner: int, hash: string, now: int): set<int> {
    set id | id in rows && rows[id].owner == Some(owner) && rows[id].contentHash == hash &&
      Unexpired(rows[id].expiresAt, now)
  }

  /** ORDER BY created_at DESC LIMIT 1, the earlier row winning a tie. */
  predicate IsLatest(rows: PasteRows, ids: set<int>, id: int) {
    id in ids && id in rows && forall other :: other in ids && other in rows ==>
      rows[other].createdAt < rows[id].createdAt || (rows[other].createdAt == rows[id].createdAt && id <= other)
  }

  lemma {:induction false} LatestExists(rows: PasteRows, ids: set<int>)
    requires ids != {} && ids <= rows.Keys
    ensures exists id :: IsLatest(rows, ids, id)
    decreases ids
  {
    var one := AnyOf(ids);
    if ids == {one} {
      assert IsLatest(rows, ids, one);
    } else {
      var rest := ids - {one};
      LatestExists(rows, rest);
      var best :| IsLatest(rows, rest, best);
      assert IsLatest(rows, ids, one) || IsLatest(rows, ids, best);
    }
  }

  ghost function FindOwnerDuplicate(rows: PasteRows, owner: int, hash: string, now: int): (r: Option<int>)
    ensures r.None? <==> OwnerDuplicates(rows, owner, hash, now) == {}
    ensures r.Some? ==> IsLatest(rows, OwnerDuplicates(rows, owner, hash, now), r.value)
    ensures r.None? ==> forall id :: id in rows ==> !OwnsContent(rows[id], owner, hash, now)
    ensures r.Some? ==> NewestOfContent(rows, r.value, owner, hash, now)
  {
    var ids := OwnerDuplicates(rows, owner, hash, now);
    assert forall id :: id in rows && OwnsContent(rows[id], owner, hash, now) ==> id in ids;
    if ids == {} then None
    else
      LatestExists(rows, ids);
      var id :| IsLatest(rows, ids, id);
      Some(id)
  }

  datatype Glance = Proceed(pastes: Table<PasteRow>) | Known(record: Record)

  /** An existing file answers the upload; the row of a missing file is deleted. */
  ghost function CheckDuplicate(site: Site, u: Upload, hash: string, now: int): Glance {
    match FindOwnerDuplicate(site.pastes.rows, u.owner, hash, now)
    case None => Proceed(site.pastes)
    case Some(id) =>
      var row := site.pastes.rows[id];
      if row.path !in site.files then Proceed(DeletePaste(site.pastes, id))
      else if IsCompatibleDuplicate(u.kind, row.kind) then Known(Record(id, row))
      else Proceed(site.pastes)
  }

  predicate Suppresses(u: Upload) {
    u.suppressDuplicates && u.expiryMillis.None?
  }

  function PasteOf(u: Upload, expiresAt: Option<int>): NewPaste {
    NewPaste(Some(u.owner), u.filename, TargetPath(u), u.kind, u.createdAt, u.size, expiresAt, u.storedHash)
  }

  /** The last third of an upload: the file is on disk, and its metadata is recorded or the file taken back. */
  ghost function RecordUpload(site: Site, u: Upload, now: int): (Site, UploadReply) {
    match ExpirySeconds(u.expiryMillis)
    case Err(e) => (site, Failed(e))
    case Ok(expiresAt) =>
      var (pastes, persisted) :=
        Persist(site.pastes, site.files, PasteOf(u, expiresAt), Suppresses(u) && DedupCategory(u.kind).Some?, now);
      var rolledBack := Site(WithoutPair(site.files, TargetPath(u)), pastes);
      match persisted {
        case Recorded => (site.(pastes := pastes), Accepted)
        case Existing(record) => (rolledBack, Folded(record))
        case Refused(PublicFilenameConflict(_)) => (rolledBack, Conflict)
        case Refused(e) => (rolledBack, Failed(e))
        case GaveUp => (rolledBack, Failed(Database))
      }
  }

  /** The middle third: the file is on disk; remote files are looked up by their content only now. */
  ghost function FinishUpload(site: Site, u: Upload, now: int): (Site, UploadReply) {
    if Suppresses(u) && u.kind.RemoteFile? then
      match CheckDuplicate(site, u, u.storedHash, now)
      case Known(record) => (site.(files := WithoutPair(site.files, TargetPath(u))), Folded(record))
      case Proceed(pastes) => RecordUpload(site.(pastes := pastes), u, now)
    else RecordUpload(site, u, now)
  }

  ghost function StoreUpload(site: Site, u: Upload, now: int, nanos: nat): (Site, UploadReply) {
    var (files, stored) := StoreEntry(site.files, u, nanos);
    if !stored then (site.(files := files), Conflict) else FinishUpload(site.(files := files), u, now)
  }

  ghost function UploadPaste(site: Site, u: Upload, now: int, nanos: nat): (Site, UploadReply) {
    if Suppresses(u) && (u.kind.File? || u.kind.Url?) then
      match CheckDuplicate(site, u, u.rawHash, now)
      case Known(record) => (site, Folded(record))
      case Proceed(pastes) => StoreUpload(site.(pastes := pastes), u, now, nanos)
    else StoreUpload(site, u, now, nanos)
  }

  // ----- deletion and sweep -----

  function KindRank(kind: PasteType): nat {
    match kind
    case File => 0
    case RemoteFile => 1
    case Url => 2
    case Oneshot => 3
    case OneshotUrl => 4
    case ProtectedFile => 5
  }

  /** The records of a filename whose file is there. */
  function Deletable(site: Site, filename: string, now: int): (ids: set<int>)
    ensures ids <= site.pastes.rows.Keys
  {
    set id | id in FindByFilename(site.pastes.rows, filename, now) && site.pastes.rows[id].path in site.files
  }

  predicate ComesFirst(rows: PasteRows, ids: set<int>, id: int) {
    id in ids && id in rows && forall other :: other in ids && other in rows ==>
      KindRank(rows[id].kind) < KindRank(rows[other].kind) ||
        (KindRank(rows[id].kind) == KindRank(rows[other].kind) && id <= other)
  }

  lemma {:induction false} FirstExists(rows: PasteRows, ids: set<int>)
    requires ids != {} && ids <= rows.Keys
    ensures exists id :: ComesFirst(rows, ids, id)
    decreases ids
  {
    var one := AnyOf(ids);
    if ids == {one} {
      assert ComesFirst(rows, ids, one);
    } else {
      var rest := ids - {one};
      FirstExists(rows, rest);
      var best :| ComesFirst(rows, rest, best);
      assert ComesFirst(rows, ids, one) || ComesFirst(rows, ids, best);
    }
  }

  ghost function FirstRecord(rows: PasteRows, ids: set<int>): (r: Option<int>)
    requires ids <= rows.Keys
    ensures r.None? <==> ids == {}
    ensures r.Some? ==> ComesFirst(rows, ids, r.value)
  {
    if ids == {} then None
    else
      FirstExists(rows, ids);
      var id :| ComesFirst(rows, ids, id);
      Some(id)
  }

  datatype DeleteReply = Deleted | NotFound | Forbidden

  ghost function DeleteUpload(site: Site, filename: string, requester: Option<int>, globalDelete: bool,
                              now: int): (Site, DeleteReply) {
    var rows := site.pastes.rows;
    match FirstRecord(rows, Deletable(site, filename, now))
    case None => (site, NotFound)
    case Some(id) =>
      if !globalDelete && rows[id].owner != requester then (site, Forbidden)
      else (Site(WithoutPair(site.files, rows[id].path), DeletePaste(site.pastes, id)), Deleted)
  }

  /** The pattern `*.[0-9]*`. */
  predicate HasDotDigit(name: string) {
    exists k :: 0 <= k < |name| - 1 && name[k] == '.' && IsDigit(name[k + 1])
  }

  /** The listing of the sweep takes a file of this name. */
  predicate InSweep(name: string, nanos: nat) {
    HasDotDigit(name) && SuffixExpired(name, nanos)
  }

  function ExpiredFiles(files: Files, nanos: nat): set<Path> {
    set path | path in files && InSweep(path.name, nanos)
  }

  /** Content, then sidecar, then row. */
  function RemoveExpired(site: Site, path: Path): Site {
    if path in site.files then Site(WithoutPair(site.files, path), DeleteByPath(site.pastes, path)) else site
  }

  function Sweep(site: Site, expired: seq<Path>): Site {
    if expired == [] then site else RemoveExpired(Sweep(site, expired[..|expired|-1]), expired[|expired|-1])
  }

  // ----- what a sweep removes -----

  lemma SidecarsDoNotExpire(path: Path, nanos: nat)
    ensures !SuffixExpired(SidecarOf(path).name, nanos)
  {
    SidecarHasNoMillis(path.name);
  }

  /** An expired file, or the password file of one. */
  predicate Swept(expired: seq<Path>, path: Path) {
    path in expired || exists p :: p in expired && path == SidecarOf(p)
  }

  ghost predicate SweptSite(before: Site, after: Site, expired: seq<Path>) {
    && (forall path :: path in after.files <==> path in before.files && !Swept(expired, path))
    && (forall path :: path in after.files ==> after.files[path] == before.files[path])
    && (forall id :: id in after.pastes.rows <==> id in before.pastes.rows && before.pastes.rows[id].path !in expired)
    && (forall id :: id in after.pastes.rows ==> after.pastes.rows[id] == before.pastes.rows[id])
  }

  lemma SweptOneMore(before: Site, middle: Site, expired: seq<Path>, path: Path, nanos: nat)
    requires SweptSite(before, middle, expired) && path in before.files && SuffixExpired(path.name, nanos)
    ensures SweptSite(before, RemoveExpired(middle, path), expired + [path])
  {
    var more := expired + [path];
    forall p | p in expired ensures SidecarOf(p) != path {
      SidecarsDoNotExpire(p, nanos);
    }
    forall other ensures Swept(more, other) <==> Swept(expired, other) || other == path || other == SidecarOf(path) {
      if exists p :: p in expired && other == SidecarOf(p) {
        var p :| p in expired && other == SidecarOf(p);
        assert p in more;
      }
      assert path in more;
    }
    assert path !in middle.files ==> path in expired;
  }

  /** A sweep removes the listed files with their password files and rows, and nothing else. */
  lemma {:induction false} SweepIsExact(site: Site, expired: seq<Path>, nanos: nat)
    requires forall path :: path in expired ==> path in site.files && SuffixExpired(path.name, nanos)
    ensures SweptSite(site, Sweep(site, expired), expired)
  {
    if expired != [] {
      var n := |expired| - 1;
      assert expired == expired[..n] + [expired[n]];
      SweepIsExact(site, expired[..n], nanos);
      SweptOneMore(site, Sweep(site, expired[..n]), expired[..n], expired[n], nanos);
    }
  }

  /**
   After the sweep of what was listed nothing expired is left. Of the rest a file is gone exactly when it
   has the name of an expired file's password file, be it somebody's upload; rows of unexpired names stay.
   */
  lemma SweepLeavesNothingExpired(site: Site, expired: seq<Path>, nanos: nat)
    requires forall path :: path in expired <==> path in ExpiredFiles(site.files, nanos)
    ensures ExpiredFiles(Sweep(site, expired).files, nanos) == {}
    ensures forall path :: path in site.files && path !in ExpiredFiles(site.files, nanos) ==>
      (path !in Sweep(site, expired).files <==>
         exists p :: p in ExpiredFiles(site.files, nanos) && path == SidecarOf(p))
    ensures forall id :: id in site.pastes.rows && site.pastes.rows[id].path !in ExpiredFiles(site.files, nanos) ==>
      id in Sweep(site, expired).pastes.rows
  {
    SweepIsExact(site, expired, nanos);
    var after, listed := Sweep(site, expired).files, ExpiredFiles(site.files, nanos);
    forall path ensures path !in ExpiredFiles(after, nanos) {
      assert path in after ==> path !in expired;
    }
    forall path | path in site.files && path !in listed
      ensures path !in after <==> exists p :: p in listed && path == SidecarOf(p)
    {
      if exists p :: p in listed && path == SidecarOf(p) {
        var p :| p in listed && path == SidecarOf(p);
        assert p in expired;
      }
    }
  }

  /**
   Which visible pastes a sweep takes: one with an expiry only in the last fraction of its final second, one
   without an expiry exactly when its name ends in a number of milliseconds that has passed.
   */
  lemma VisiblePasteSweptIff(site: Site, expired: seq<Path>, nanos: nat, id: int, u: Upload)
    requires forall path :: path in expired <==> path in ExpiredFiles(site.files, nanos)
    requires id in site.pastes.rows && TargetPath(u) in site.files && u.filename != ""
    requires site.pastes.rows[id].path == TargetPath(u) &&
      ExpirySeconds(u.expiryMillis) == Ok(site.pastes.rows[id].expiresAt)
    requires Visible(site.pastes.rows, id, nanos / NANOS_PER_SECOND)
    ensures id !in Sweep(site, expired).pastes.rows <==>
      match u.expiryMillis
      case None => InSweep(u.filename, nanos)
      case Some(millis) =>
        millis <= U64_MAX && millis * NANOS_PER_MILLI < nanos < CeilSeconds(millis).value * NANOS_PER_SECOND
  {
    SweepIsExact(site, expired, nanos);
    match u.expiryMillis
    case None =>
    case Some(millis) =>
      StoredMillis(u.filename, millis);
      StoredHasDotDigit(u.filename, millis);
      var seconds := CeilSeconds(millis).value;
      assert seconds > nanos / NANOS_PER_SECOND <==> nanos < seconds * NANOS_PER_SECOND;
  }

  lemma StoredHasDotDigit(name: string, millis: nat)
    ensures HasDotDigit(StoredName(name, Some(millis)))
  {
    var stored := StoredName(name, Some(millis));
    assert stored[|name|] == '.' && stored[|name| + 1] == Decimal(millis)[0];
  }

  /** One upload, of an owner, at this path and under its name, that never expires. */
  function Unexpiring(path: Path): Site {
    var row := PasteRow(Some(1), path.name, path, File, 0, 0, 1, None, "h", None, Some(path.name));
    Site(map[path := Content("h")], Table(map[1 := row], 2))
  }

  /** A file whose name the sweep takes goes with its row, whatever the row says. */
  lemma UnexpiringIsSwept(path: Path, nanos: nat)
    requires InSweep(path.name, nanos)
    ensures
      var after := Sweep(Unexpiring(path), [path]);
      && ExpiredFiles(Unexpiring(path).files, nanos) == {path} && path !in after.files && 1 !in after.pastes.rows
  {
    var listed := ExpiredFiles(Unexpiring(path).files, nanos);
    forall other ensures other in listed <==> other == path {
    }
    SweepOfOne(Unexpiring(path), path);
  }

  /** It happens: an upload named backup.2024, without any expiry, is swept with its row. */
  lemma NumberedNameIsSwept(nanos: nat)
    requires nanos > 2024 * NANOS_PER_MILLI
    ensures
      var path := Path(RootDir, "backup.2024");
      var after := Sweep(Unexpiring(path), [path]);
      && Visible(Unexpiring(path).pastes.rows, 1, nanos / NANOS_PER_SECOND)
      && ExpiredFiles(Unexpiring(path).files, nanos) == {path} && path !in after.files && 1 !in after.pastes.rows
  {
    NumberedNameIsListed(nanos);
    UnexpiringIsSwept(Path(RootDir, "backup.2024"), nanos);
  }

  lemma NumberedNameIsListed(nanos: nat)
    requires nanos > 2024 * NANOS_PER_MILLI
    ensures InSweep("backup.2024", nanos)
  {
    var base, digits := "backup", "2024";
    assert base + "." + digits == "backup.2024";
    LastDotIs(base, digits);
    assert "backup.2024"[7..] == digits;
    assert Value("2024") == 2024 by {
      assert "2024"[..3] == "202" && "202"[..2] == "20" && "20"[..1] == "2" && "2"[..0] == "";
    }
    assert "backup.2024"[6] == '.' && IsDigit("backup.2024"[7]);
  }

  lemma SweepOfOne(site: Site, path: Path)
    ensures Sweep(site, [path]) == RemoveExpired(site, path)
  {
    assert [path][..0] == [];
  }

  /** It happens: the sweep of an expiring paste takes a visible upload that has the name of its password file. */
  lemma SweepTakesNeighbour(nanos: nat)
    requires nanos > 1_700_000_000_000 * NANOS_PER_MILLI
    ensures
      var path := Path(RootDir, StoredName("a", Some(1_700_000_000_000)));
      var other := SidecarOf(path);
      var row := PasteRow(Some(2), other.name, other, File, 0, 0, 1, None, "g", None, Some(other.name));
      var site := Site(map[path := Content("h"), other := Content("g")], Table(map[2 := row], 3));
      var after := Sweep(site, [path]);
      path in ExpiredFiles(site.files, nanos) && other !in ExpiredFiles(site.files, nanos)
      && other !in after.files && 2 in after.pastes.rows
  {
    var path := Path(RootDir, StoredName("a", Some(1_700_000_000_000)));
    StoredMillis("a", 1_700_000_000_000);
    StoredHasDotDigit("a", 1_700_000_000_000);
    SidecarsDoNotExpire(path, nanos);
    var other := SidecarOf(path);
    assert |other.name| == |path.name| + 9;
    var row := PasteRow(Some(2), other.name, other, File, 0, 0, 1, None, "g", None, Some(other.name));
    var site := Site(map[path := Content("h"), other := Content("g")], Table(map[2 := row], 3));
    SweepOfOne(site, path);
  }

  // ----- what a deletion removes -----

  predicate LosesContent(before: Files, after: Files, path: Path) {
    path in before && before[path].Content? && path !in after
  }

  /**
   A deletion takes no file but the record's own, unless another file has the name of its password file.
   If that was an upload of its own, its row stays behind.
   */
  lemma DeletionTakesNeighbourIff(site: Site, filename: string, requester: Option<int>, globalDelete: bool, now: int)
    requires DeleteUpload(site, filename, requester, globalDelete, now).1.Deleted?
    ensures
      var path := site.pastes.rows[FirstRecord(site.pastes.rows, Deletable(site, filename, now)).value].path;
      var after := DeleteUpload(site, filename, requester, globalDelete, now).0;
      && ((exists other :: other != path && LosesContent(site.files, after.files, other)) <==>
          SidecarOf(path) in site.files && site.files[SidecarOf(path)].Content?)
      && (forall other :: other != path && PathTaken(site.pastes.rows, other) ==> PathTaken(after.pastes.rows, other))
  {
    var id: int := FirstRecord(site.pastes.rows, Deletable(site, filename, now)).value;
    var path := site.pastes.rows[id].path;
    var after := DeleteUpload(site, filename, requester, globalDelete, now).0;
    assert |SidecarOf(path).name| == |path.name| + 9;
    assert SidecarOf(path) !in after.files;
    assert LosesContent(site.files, after.files, SidecarOf(path)) <==>
      SidecarOf(path) in site.files && site.files[SidecarOf(path)].Content?;
    forall other | other != path && PathTaken(site.pastes.rows, other) ensures PathTaken(after.pastes.rows, other) {
      var row :| row in site.pastes.rows && site.pastes.rows[row].path == other;
      assert after.pastes.rows[row].path == other;
    }
  }

  /** It happens: the owner of a deletes it, and somebody's upload a.password is gone. */
  lemma DeletionTakesNeighbour(now: int)
    ensures
      var path, other := Path(RootDir, "a"), Path(RootDir, "a.password");
      var rows := map[
        1 := PasteRow(Some(1), "a", path, File, 0, 0, 1, None, "h", None, Some("a")),
        2 := PasteRow(Some(2), "a.password", other, File, 0, 0, 1, None, "g", None, Some("a.password"))];
      var site := Site(map[path := Content("h"), other := Content("g")], Table(rows, 3));
      var (after, reply) := DeleteUpload(site, "a", Some(1), false, now);
      reply.Deleted? && other !in after.files && 2 in after.pastes.rows
  {
    var path, other := Path(RootDir, "a"), Path(RootDir, "a.password");
    var rows := map[
      1 := PasteRow(Some(1), "a", path, File, 0, 0, 1, None, "h", None, Some("a")),
      2 := PasteRow(Some(2), "a.password", other, File, 0, 0, 1, None, "g", None, Some("a.password"))];
    var site := Site(map[path := Content("h"), other := Content("g")], Table(rows, 3));
    assert SidecarOf(path) == other;
    var ids := Deletable(site, "a", now);
    forall id ensures id in ids <==> id == 1 {
      assert "a" != "a.password";
    }
    assert 1 in ids;
    var first := FirstRecord(rows, ids);
    assert first.Some? && first.value in ids;
  }

  // ----- the retry loop -----

  /** Rows go only when their file is missing; what stays visible stays as it was. */
  predicate DropsOnlyStale(before: PasteRows, after: PasteRows, files: Files, now: int) {
    && (forall id :: id in before && id !in after ==> before[id].path !in files)
    && (forall id :: id in before && id in after ==> after[id].path == before[id].path)
    && (forall id :: id in before && id in after && Unexpired(before[id].expiresAt, now) ==> after[id] == before[id])
  }

  lemma DropsOnlyStaleTwice(a: PasteRows, b: PasteRows, c: PasteRows, files: Files, now: int)
    requires DropsOnlyStale(a, b, files, now) && DropsOnlyStale(b, c, files, now)
    requires forall id :: id in c && id !in b ==> id !in a
    ensures DropsOnlyStale(a, c, files, now)
  {
  }

  /** A duplicate that is deleted leaves no second duplicate behind. */
  lemma DeletedDuplicateIsGone(t: Table<PasteRow>, p: NewPaste, now: int)
    requires Schema(t) && InsertDeduplicated(t, p, now).1.Ok? && InsertDeduplicated(t, p, now).1.value.Duplicate?
    ensures
      var (after, result) := InsertDeduplicated(t, p, now);
      var again := DeletePaste(after, result.value.record.id);
      && Schema(again) && result.value.record.id in t.rows &&
        t.rows[result.value.record.id].path == result.value.record.row.path
      && again.rows.Keys == t.rows.Keys - {result.value.record.id}
      && (InsertDeduplicated(again, p, now).1.Ok? ==> InsertDeduplicated(again, p, now).1.value.Inserted?)
  {
    InsertKeepsSchema(t, p, now);
    var (after, result) := InsertDeduplicated(t, p, now);
    var id := result.value.record.id;
    var again := DeletePaste(after, id);
    var key := DedupKey(DedupCategory(p.kind).value, p.contentHash);
    assert SameDedup(after.rows[id], after.rows[id]);
    var cleared := ClearExpiredLink(again.rows, p.filename, now);
    var found := FindDedup(cleared, p.owner.value, key);
    if found.Some? {
      var other: int := found.value;
      assert other in after.rows && SameDedup(after.rows[other], after.rows[id]);
      assert false;
    }
  }

  /** Releasing an expired key, and adding a row, leaves the visible rows as they were. */
  lemma ReleaseDropsNothing(rows: PasteRows, key: string, now: int, files: Files, id: int, row: PasteRow)
    requires id !in rows
    ensures DropsOnlyStale(rows, ClearExpiredLink(rows, key, now), files, now)
    ensures DropsOnlyStale(rows, ClearExpiredLink(rows, key, now)[id := row], files, now)
    ensures ClearExpiredLink(rows, key, now).Keys == rows.Keys
  {
  }

  /** The three ways in which a deduplicating insert leaves the rows. */
  lemma AttemptShape(t: Table<PasteRow>, p: NewPaste, now: int) returns (row: PasteRow)
    ensures
      var after, cleared := InsertDeduplicated(t, p, now).0.rows, ClearExpiredLink(t.rows, p.filename, now);
      after == t.rows || after == cleared || after == cleared[t.nextId := row]
  {
    var result := InsertDeduplicated(t, p, now).1;
    row := if result.Ok? then result.value.record.row else RowOf(p, None, None);
  }

  /** What one attempt does to the other rows. */
  lemma AttemptDropsNothing(t: Table<PasteRow>, p: NewPaste, now: int, files: Files)
    requires Schema(t)
    ensures DropsOnlyStale(t.rows, InsertDeduplicated(t, p, now).0.rows, files, now)
    ensures t.rows.Keys <= InsertDeduplicated(t, p, now).0.rows.Keys <= t.rows.Keys + {t.nextId}
  {
    var row := AttemptShape(t, p, now);
    ReleaseDropsNothing(t.rows, p.filename, now, files, t.nextId, row);
  }

  lemma PlainInsertDropsNothing(t: Table<PasteRow>, p: NewPaste, now: int, files: Files)
    requires Schema(t)
    ensures DropsOnlyStale(t.rows, InsertPaste(t, p, now).0.rows, files, now)
    ensures t.rows.Keys <= InsertPaste(t, p, now).0.rows.Keys <= t.rows.Keys + {t.nextId}
  {
  }

  function Stale(rows: PasteRows, files: Files): set<int> {
    set id | id in rows && rows[id].path !in files
  }

  lemma StaleLeaves(before: PasteRows, after: PasteRows, files: Files, path: Path)
    requires forall id :: id in before && before[id].path in files ==> id in after && after[id].path == before[id].path
    requires !PathTaken(after - Stale(after, files), path)
    ensures !PathTaken(before - Stale(before, files), path)
  {
    var left := before - Stale(before, files);
    var kept := after - Stale(after, files);
    forall id | id in left ensures left[id].path != path {
      assert id in kept && kept[id].path == left[id].path;
    }
  }

  lemma InsertedPathIsNew(t: Table<PasteRow>, p: NewPaste, now: int, files: Files)
    requires InsertDeduplicated(t, p, now).1.Ok? && InsertDeduplicated(t, p, now).1.value.Inserted?
    ensures PathTaken(InsertDeduplicated(t, p, now).0.rows, p.path)
    ensures !PathTaken(t.rows - Stale(t.rows, files), p.path)
  {
    var after := InsertDeduplicated(t, p, now).0;
    assert after.rows[t.nextId].path == p.path;
    var cleared, left := ClearExpiredLink(t.rows, p.filename, now), t.rows - Stale(t.rows, files);
    forall id | id in left ensures left[id].path != p.path {
      assert id in cleared && cleared[id].path == left[id].path;
    }
  }

  /**
   How a settled loop leaves the table: it answers with an existing record only if that record's file exists,
   records only by inserting the row, and deletes no row whose file exists.
   */
  predicate Settled(before: Table<PasteRow>, after: Table<PasteRow>, persisted: Persisted, files: Files, path: Path,
                    now: int) {
    && Schema(after) && !persisted.GaveUp? && DropsOnlyStale(before.rows, after.rows, files, now)
    && (persisted.Existing? ==> persisted.record.row.path in files && persisted.record.id in before.rows)
    && (persisted.Recorded? ==>
          PathTaken(after.rows, path) && !PathTaken(before.rows - Stale(before.rows, files), path))
    && (!persisted.Recorded? ==> after.rows.Keys <= before.rows.Keys)
  }

  /** The insert met a row whose file is missing. */
  ghost predicate MeetsStale(t: Table<PasteRow>, files: Files, p: NewPaste, now: int) {
    var result := InsertDeduplicated(t, p, now).1;
    result.Ok? && result.value.Duplicate? && result.value.record.row.path !in files
  }

  lemma LastAttempt(t: Table<PasteRow>, files: Files, p: NewPaste, now: int, passes: nat)
    requires Schema(t) && passes > 0 && !MeetsStale(t, files, p, now)
    ensures RetryInsert(t, files, p, now, passes) == RetryInsert(t, files, p, now, 1)
    ensures
      var (after, persisted) := RetryInsert(t, files, p, now, passes);
      Settled(t, after, persisted, files, p.path, now) && after.rows.Keys <= t.rows.Keys + {t.nextId}
  {
    InsertKeepsSchema(t, p, now);
    AttemptDropsNothing(t, p, now, files);
    var result := InsertDeduplicated(t, p, now).1;
    if result.Ok? && result.value.Inserted? {
      InsertedPathIsNew(t, p, now, files);
    }
  }

  lemma StaleAttemptRetries(t: Table<PasteRow>, files: Files, p: NewPaste, now: int, passes: nat)
    requires MeetsStale(t, files, p, now) && passes > 0
    ensures
      var (after, result) := InsertDeduplicated(t, p, now);
      RetryInsert(t, files, p, now, passes)
        == RetryInsert(DeletePaste(after, result.value.record.id), files, p, now, passes - 1)
  {
  }

  lemma StaleAttempt(t: Table<PasteRow>, files: Files, p: NewPaste, now: int) returns (again: Table<PasteRow>)
    requires Schema(t) && MeetsStale(t, files, p, now)
    ensures again == DeletePaste(InsertDeduplicated(t, p, now).0, InsertDeduplicated(t, p, now).1.value.record.id)
    ensures Schema(again) && !MeetsStale(again, files, p, now) && again.nextId == t.nextId
    ensures again.rows.Keys <= t.rows.Keys && DropsOnlyStale(t.rows, again.rows, files, now)
  {
    DeletedDuplicateIsGone(t, p, now);
    AttemptDropsNothing(t, p, now, files);
    var (after, result) := InsertDeduplicated(t, p, now);
    again := DeletePaste(after, result.value.record.id);
    DeletionDropsStale(t.rows, after.rows, result.value.record.id, files, now);
  }

  lemma DeletionDropsStale(before: PasteRows, after: PasteRows, id: int, files: Files, now: int)
    requires DropsOnlyStale(before, after, files, now) && id in before && before[id].path !in files
    ensures DropsOnlyStale(before, after - {id}, files, now)
  {
  }

  /** Run without interference the loop needs at most two passes and never gives up. */
  lemma RetryLoopSettles(t: Table<PasteRow>, files: Files, p: NewPaste, now: int)
    requires Schema(t)
    ensures RetryInsert(t, files, p, now, PERSIST_PASSES) == RetryInsert(t, files, p, now, 2)
    ensures
      var (after, persisted) := RetryInsert(t, files, p, now, PERSIST_PASSES);
      Settled(t, after, persisted, files, p.path, now)
  {
    if MeetsStale(t, files, p, now) {
      var again := StaleAttempt(t, files, p, now);
      StaleAttemptRetries(t, files, p, now, PERSIST_PASSES);
      StaleAttemptRetries(t, files, p, now, 2);
      LastAttempt(again, files, p, now, 2);
      LastAttempt(again, files, p, now, 1);
      var (after, persisted) := RetryInsert(again, files, p, now, 2);
      DropsOnlyStaleTwice(t.rows, again.rows, after.rows, files, now);
      if persisted.Recorded? {
        StaleLeaves(t.rows, again.rows, files, p.path);
      }
    } else {
      LastAttempt(t, files, p, now, PERSIST_PASSES);
      LastAttempt(t, files, p, now, 2);
    }
  }

  // ----- agreement of directory and table -----

  /** Every stored paste file has a row; the schema makes it exactly one. */
  predicate Tracked(site: Site) {
    Schema(site.pastes) && forall path :: path in site.files && site.files[path].Content? ==>
      PathTaken(site.pastes.rows, path)
  }

  lemma StillTaken(before: PasteRows, after: PasteRows, files: Files, now: int, path: Path)
    requires DropsOnlyStale(before, after, files, now) && path in files && PathTaken(before, path)
    ensures PathTaken(after, path)
  {
    var id :| id in before && before[id].path == path;
    assert after[id].path == path;
  }

  lemma PersistSettles(t: Table<PasteRow>, files: Files, p: NewPaste, deduplicate: bool, now: int)
    requires Schema(t)
    ensures
      var (after, persisted) := Persist(t, files, p, deduplicate, now);
      && Schema(after) && !persisted.GaveUp? && DropsOnlyStale(t.rows, after.rows, files, now)
      && (persisted.Recorded? ==> PathTaken(after.rows, p.path))
      && (persisted.Existing? ==> persisted.record.row.path in files)
      && (!persisted.Recorded? ==> after.rows.Keys <= t.rows.Keys)
  {
    if deduplicate {
      RetryLoopSettles(t, files, p, now);
    } else {
      InsertKeepsSchema(t, p, now);
      PlainInsertDropsNothing(t, p, now, files);
      if InsertPaste(t, p, now).1.Ok? {
        assert InsertPaste(t, p, now).0.rows[t.nextId].path == p.path;
      }
    }
  }

  /** All files are tracked but possibly the one just stored. */
  predicate TrackedBut(site: Site, latest: Path) {
    Schema(site.pastes) &&
    forall path :: path in site.files && path != latest && site.files[path].Content? ==>
      PathTaken(site.pastes.rows, path)
  }

  /** Recording ends tracked, unless the expiry does not fit the metadata: then the new file stays without a row. */
  lemma RecordTracks(site: Site, u: Upload, now: int)
    requires TrackedBut(site, TargetPath(u)) && ExpirySeconds(u.expiryMillis).Ok?
    ensures Tracked(RecordUpload(site, u, now).0)
  {
    var p := PasteOf(u, ExpirySeconds(u.expiryMillis).value);
    var deduplicate := Suppresses(u) && DedupCategory(u.kind).Some?;
    PersistSettles(site.pastes, site.files, p, deduplicate, now);
    var pastes := Persist(site.pastes, site.files, p, deduplicate, now).0;
    var after := RecordUpload(site, u, now).0;
    forall path | path in after.files && after.files[path].Content? ensures PathTaken(after.pastes.rows, path) {
      if path != TargetPath(u) {
        StillTaken(site.pastes.rows, pastes.rows, site.files, now, path);
      }
    }
  }

  lemma GlanceTracks(site: Site, u: Upload, hash: string, now: int, latest: Path)
    requires TrackedBut(site, latest) && CheckDuplicate(site, u, hash, now).Proceed?
    ensures TrackedBut(site.(pastes := CheckDuplicate(site, u, hash, now).pastes), latest)
    ensures Tracked(site) ==> Tracked(site.(pastes := CheckDuplicate(site, u, hash, now).pastes))
    ensures DropsOnlyStale(site.pastes.rows, CheckDuplicate(site, u, hash, now).pastes.rows, site.files, now)
    ensures CheckDuplicate(site, u, hash, now).pastes.rows.Keys <= site.pastes.rows.Keys
  {
    var pastes := CheckDuplicate(site, u, hash, now).pastes;
    forall path | path in site.files && PathTaken(site.pastes.rows, path) ensures PathTaken(pastes.rows, path) {
      StillTaken(site.pastes.rows, pastes.rows, site.files, now, path);
    }
  }

  lemma FinishTracks(site: Site, u: Upload, now: int)
    requires TrackedBut(site, TargetPath(u)) && ExpirySeconds(u.expiryMillis).Ok?
    ensures Tracked(FinishUpload(site, u, now).0)
  {
    if Suppresses(u) && u.kind.RemoteFile? {
      var glance := CheckDuplicate(site, u, u.storedHash, now);
      if glance.Proceed? {
        GlanceTracks(site, u, u.storedHash, now, TargetPath(u));
        RecordTracks(site.(pastes := glance.pastes), u, now);
      }
    } else {
      RecordTracks(site, u, now);
    }
  }

  lemma StoreTracks(site: Site, u: Upload, now: int, nanos: nat)
    requires Tracked(site) && ExpirySeconds(u.expiryMillis).Ok?
    ensures Tracked(StoreUpload(site, u, now, nanos).0)
  {
    var (files, stored) := StoreEntry(site.files, u, nanos);
    if stored {
      FinishTracks(site.(files := files), u, now);
    }
  }

  lemma UploadTracks(site: Site, u: Upload, now: int, nanos: nat)
    requires Tracked(site) && ExpirySeconds(u.expiryMillis).Ok?
    ensures Tracked(UploadPaste(site, u, now, nanos).0)
  {
    if Suppresses(u) && (u.kind.File? || u.kind.Url?) {
      var glance := CheckDuplicate(site, u, u.rawHash, now);
      if glance.Proceed? {
        GlanceTracks(site, u, u.rawHash, now, TargetPath(u));
        StoreTracks(site.(pastes := glance.pastes), u, now, nanos);
      }
    } else {
      StoreTracks(site, u, now, nanos);
    }
  }

  /**
   The exact condition, for every upload: it leaves a file without a row if and only if it stores a file whose
   expiry is too large for the metadata, at a path that no row has.
   */
  lemma OversizedExpiryIsUntracked(site: Site, u: Upload, now: int, nanos: nat)
    requires Tracked(site)
    ensures Tracked(UploadPaste(site, u, now, nanos).0) <==>
      ExpirySeconds(u.expiryMillis).Ok? || !StoreEntry(site.files, u, nanos).1
      || PathTaken(site.pastes.rows, TargetPath(u))
  {
    if ExpirySeconds(u.expiryMillis).Ok? {
      UploadTracks(site, u, now, nanos);
    } else {
      var after := UploadPaste(site, u, now, nanos).0;
      assert after == site.(files := StoreEntry(site.files, u, nanos).0);
      StoredContent(site.files, u, nanos);
    }
  }

  /** Storing adds no content but the upload's own. */
  lemma StoredContent(files: Files, u: Upload, nanos: nat)
    ensures
      var (after, stored) := StoreEntry(files, u, nanos);
      && (forall path :: path in after && after[path].Content? && (path != TargetPath(u) || !stored) ==>
            path in files && files[path] == after[path])
      && (stored ==> TargetPath(u) in after && after[TargetPath(u)] == Content(u.storedHash))
  {
  }

  /** It happens: the first expiry beyond 64 bits of seconds. */
  lemma OversizedUploadIsUntracked(now: int, nanos: nat)
    ensures
      var u := Upload(1, Url, "u", Some((I64_MAX + 1) * 1000), "h", "h", 1, 0, true);
      var (after, reply) := UploadPaste(Site(map[], Table(map[], 1)), u, now, nanos);
      reply.Failed? && TargetPath(u) in after.files && after.files[TargetPath(u)].Content? && after.pastes.rows == map[]
  {
  }

  /** Removing a pair of files and one row of theirs. */
  lemma RemovalTracks(site: Site, after: Site, path: Path)
    requires Tracked(site) && after.files == WithoutPair(site.files, path) && Schema(after.pastes)
    requires forall id :: id in site.pastes.rows && site.pastes.rows[id].path != path ==>
      id in after.pastes.rows && after.pastes.rows[id] == site.pastes.rows[id]
    ensures Tracked(after)
  {
    forall other | other in after.files && after.files[other].Content? ensures PathTaken(after.pastes.rows, other) {
      var id :| id in site.pastes.rows && site.pastes.rows[id].path == other;
      assert after.pastes.rows[id].path == other;
    }
  }

  lemma DeleteTracks(site: Site, filename: string, requester: Option<int>, globalDelete: bool, now: int)
    requires Tracked(site)
    ensures Tracked(DeleteUpload(site, filename, requester, globalDelete, now).0)
  {
    var rows := site.pastes.rows;
    var first := FirstRecord(rows, Deletable(site, filename, now));
    if first.Some? && (globalDelete || rows[first.value].owner == requester) {
      RemovalTracks(site, DeleteUpload(site, filename, requester, globalDelete, now).0, rows[first.value].path);
    }
  }

  lemma {:induction false} SweepTracks(site: Site, expired: seq<Path>)
    requires Tracked(site)
    ensures Tracked(Sweep(site, expired))
  {
    if expired != [] {
      var n := |expired| - 1;
      SweepTracks(site, expired[..n]);
      var before := Sweep(site, expired[..n]);
      if expired[n] in before.files {
        RemovalTracks(before, RemoveExpired(before, expired[n]), expired[n]);
      }
    }
  }

  datatype SiteOp =
    | Uploading(upload: Upload, nanos: nat)
    | Deleting(filename: string, requester: Option<int>, globalDelete: bool)
    | Sweeping(expired: seq<Path>)

  datatype SiteEvent = SiteEvent(now: int, op: SiteOp)

  ghost function SiteStep(site: Site, e: SiteEvent): Site {
    match e.op
    case Uploading(u, nanos) => UploadPaste(site, u, e.now, nanos).0
    case Deleting(filename, requester, globalDelete) => DeleteUpload(site, filename, requester, globalDelete, e.now).0
    case Sweeping(expired) => Sweep(site, expired)
  }

  ghost function SiteRun(site: Site, es: seq<SiteEvent>): Site {
    if es == [] then site else SiteStep(SiteRun(site, es[..|es|-1]), es[|es|-1])
  }

  /** After any run of uploads, deletions and sweeps every stored paste file has exactly one row. */
  lemma {:induction false} EveryFileHasOneRow(site: Site, es: seq<SiteEvent>)
    requires Tracked(site)
    requires forall k :: 0 <= k < |es| && es[k].op.Uploading? ==> ExpirySeconds(es[k].op.upload.expiryMillis).Ok?
    ensures Tracked(SiteRun(site, es))
    ensures forall path :: path in SiteRun(site, es).files && SiteRun(site, es).files[path].Content? ==>
      |WithPath(SiteRun(site, es).pastes.rows, path)| == 1
  {
    if es != [] {
      var n, e := |es| - 1, es[|es|-1];
      EveryFileHasOneRow(site, es[..n]);
      var before := SiteRun(site, es[..n]);
      match e.op
      case Uploading(u, nanos) => UploadTracks(before, u, e.now, nanos);
      case Deleting(filename, requester, globalDelete) =>
        DeleteTracks(before, filename, requester, globalDelete, e.now);
      case Sweeping(expired) => SweepTracks(before, expired);
    }
    TrackedOnce(SiteRun(site, es));
  }

  lemma TrackedOnce(site: Site)
    requires Tracked(site)
    ensures forall path :: path in site.files && site.files[path].Content? ==> |WithPath(site.pastes.rows, path)| == 1
  {
    forall path | path in site.files && site.files[path].Content? ensures |WithPath(site.pastes.rows, path)| == 1 {
      var id :| id in site.pastes.rows && site.pastes.rows[id].path == path;
      var ids := WithPath(site.pastes.rows, path);
      forall k ensures k in ids <==> k == id {
      }
      assert ids == {id};
    }
  }

  // ----- refused and folded uploads -----

  /** A file that is not this upload's own sits where its password file would be. */
  predicate HasCompanion(files: Files, u: Upload) {
    !u.kind.ProtectedFile? && SidecarOf(TargetPath(u)) in files
  }

  lemma StoredThenRemoved(files: Files, u: Upload, nanos: nat)
    requires StoreEntry(files, u, nanos).1
    ensures
      var after := WithoutPair(StoreEntry(files, u, nanos).0, TargetPath(u));
      if HasCompanion(files, u) then after == files - {SidecarOf(TargetPath(u))} && after != files else after == files
  {
    var path := TargetPath(u);
    assert SidecarOf(path).name != path.name by {
      assert |SidecarOf(path).name| == |path.name| + 9;
    }
    var after := WithoutPair(StoreEntry(files, u, nanos).0, path);
    if HasCompanion(files, u) {
      assert SidecarOf(path) !in after;
    }
  }

  /** The upload gets as far as creating files under its names. */
  ghost predicate TriesNames(files: Files, u: Upload, nanos: nat) {
    var names := DirectoryNames(files, TargetPath(u).directory);
    if IsUrl(u.kind) then TargetPath(u) !in files else GlobMatch(names, u.filename, nanos) !in names
  }

  /** The directory without the file at the sidecar's name, if the upload is not turned away before it creates files. */
  ghost function LessCompanion(files: Files, u: Upload, nanos: nat): Files {
    if HasCompanion(files, u) && TriesNames(files, u, nanos) then files - {SidecarOf(TargetPath(u))} else files
  }

  /** What an upload leaves in the directory that is refused before or while it creates its file. */
  lemma NotStoredFiles(files: Files, u: Upload, nanos: nat)
    requires !StoreEntry(files, u, nanos).1
    ensures StoreEntry(files, u, nanos).0 == LessCompanion(files, u, nanos)
  {
  }

  /** The rows are those of before, less stale ones. */
  predicate OnlyStaleGone(before: PasteRows, after: PasteRows, files: Files, now: int) {
    after.Keys <= before.Keys && DropsOnlyStale(before, after, files, now)
  }

  lemma OnlyStaleGoneTwice(a: PasteRows, b: PasteRows, c: PasteRows, files: Files, more: Files, now: int)
    requires OnlyStaleGone(a, b, files, now) && OnlyStaleGone(b, c, more, now) && files.Keys <= more.Keys
    ensures OnlyStaleGone(a, c, files, now)
  {
  }

  lemma RefusedRecord(site: Site, u: Upload, now: int)
    requires Schema(site.pastes) && ExpirySeconds(u.expiryMillis).Ok? && !RecordUpload(site, u, now).1.Accepted?
    ensures RecordUpload(site, u, now).0.files == WithoutPair(site.files, TargetPath(u))
    ensures OnlyStaleGone(site.pastes.rows, RecordUpload(site, u, now).0.pastes.rows, site.files, now)
    ensures RecordUpload(site, u, now).1.Folded? ==> RecordUpload(site, u, now).1.record.row.path in site.files
  {
    var p := PasteOf(u, ExpirySeconds(u.expiryMillis).value);
    PersistSettles(site.pastes, site.files, p, Suppresses(u) && DedupCategory(u.kind).Some?, now);
  }

  lemma RefusedFinish(site: Site, u: Upload, now: int)
    requires Schema(site.pastes) && ExpirySeconds(u.expiryMillis).Ok? && !FinishUpload(site, u, now).1.Accepted?
    ensures FinishUpload(site, u, now).0.files == WithoutPair(site.files, TargetPath(u))
    ensures OnlyStaleGone(site.pastes.rows, FinishUpload(site, u, now).0.pastes.rows, site.files, now)
    ensures FinishUpload(site, u, now).1.Folded? ==> FinishUpload(site, u, now).1.record.row.path in site.files
  {
    if Suppresses(u) && u.kind.RemoteFile? {
      var glance := CheckDuplicate(site, u, u.storedHash, now);
      if glance.Proceed? {
        RefusedRecord(site.(pastes := glance.pastes), u, now);
        OnlyStaleGoneTwice(site.pastes.rows, glance.pastes.rows, FinishUpload(site, u, now).0.pastes.rows, site.files,
                           site.files, now);
      }
    } else {
      RefusedRecord(site, u, now);
    }
  }

  lemma RefusedStore(site: Site, u: Upload, now: int, nanos: nat)
    requires Schema(site.pastes) && ExpirySeconds(u.expiryMillis).Ok? && !StoreUpload(site, u, now, nanos).1.Accepted?
    ensures StoreUpload(site, u, now, nanos).0.files == LessCompanion(site.files, u, nanos)
    ensures OnlyStaleGone(site.pastes.rows, StoreUpload(site, u, now, nanos).0.pastes.rows, site.files, now)
  {
    var (files, stored) := StoreEntry(site.files, u, nanos);
    if stored {
      StoredThenRemoved(site.files, u, nanos);
      RefusedFinish(site.(files := files), u, now);
      OnlyStaleGoneTwice(site.pastes.rows, site.pastes.rows, StoreUpload(site, u, now, nanos).0.pastes.rows,
                         site.files, files, now);
    } else {
      NotStoredFiles(site.files, u, nanos);
    }
  }

  /** The optimistic check answers the upload before anything is stored. */
  ghost predicate AnsweredEarly(site: Site, u: Upload, now: int) {
    Suppresses(u) && (u.kind.File? || u.kind.Url?) && CheckDuplicate(site, u, u.rawHash, now).Known?
  }

  /** The table that the optimistic check leaves. */
  ghost function AfterGlance(site: Site, u: Upload, now: int): Table<PasteRow> {
    if Suppresses(u) && (u.kind.File? || u.kind.Url?) then
      match CheckDuplicate(site, u, u.rawHash, now)
      case Known(_) => site.pastes
      case Proceed(pastes) => pastes
    else site.pastes
  }

  lemma UploadUnfolds(site: Site, u: Upload, now: int, nanos: nat)
    requires Schema(site.pastes)
    ensures AnsweredEarly(site, u, now) ==>
      UploadPaste(site, u, now, nanos).0 == site && UploadPaste(site, u, now, nanos).1.Folded?
    ensures AnsweredEarly(site, u, now) ==> UploadPaste(site, u, now, nanos).1.record.row.path in site.files
    ensures !AnsweredEarly(site, u, now) ==>
      UploadPaste(site, u, now, nanos) == StoreUpload(site.(pastes := AfterGlance(site, u, now)), u, now, nanos)
    ensures Schema(AfterGlance(site, u, now))
    ensures OnlyStaleGone(site.pastes.rows, AfterGlance(site, u, now).rows, site.files, now)
  {
  }

  /** A file of somebody else sits at the sidecar's name, and the upload is not turned away before it creates files. */
  ghost predicate TakesCompanion(site: Site, u: Upload, now: int, nanos: nat) {
    HasCompanion(site.files, u) && TriesNames(site.files, u, nanos) && !AnsweredEarly(site, u, now)
  }

  /** An expiry that does not fit the metadata is noticed only when the file is stored. */
  ghost predicate LeavesOversized(site: Site, u: Upload, nanos: nat) {
    ExpirySeconds(u.expiryMillis).Err? && StoreEntry(site.files, u, nanos).1
  }

  /**
   Every upload that is refused or folded: it leaves the directory as it found it exactly when it neither
   takes a companion with it nor stores a file with an oversized expiry, and of the rows it drops only
   stale ones.
   */
  lemma RefusedUploadRestores(site: Site, u: Upload, now: int, nanos: nat)
    requires Schema(site.pastes) && !UploadPaste(site, u, now, nanos).1.Accepted?
    ensures
      var after := UploadPaste(site, u, now, nanos).0;
      && (after.files == site.files <==> !TakesCompanion(site, u, now, nanos) && !LeavesOversized(site, u, nanos))
      && (TakesCompanion(site, u, now, nanos) && !LeavesOversized(site, u, nanos) ==>
            after.files == site.files - {SidecarOf(TargetPath(u))})
      && OnlyStaleGone(site.pastes.rows, after.pastes.rows, site.files, now)
  {
    UploadUnfolds(site, u, now, nanos);
    if !AnsweredEarly(site, u, now) {
      var glanced := site.(pastes := AfterGlance(site, u, now));
      if ExpirySeconds(u.expiryMillis).Ok? {
        RefusedStore(glanced, u, now, nanos);
        OnlyStaleGoneTwice(site.pastes.rows, glanced.pastes.rows, UploadPaste(site, u, now, nanos).0.pastes.rows,
                           site.files, site.files, now);
      } else {
        OversizedFiles(glanced, u, now, nanos);
      }
    }
  }

  lemma OversizedFiles(site: Site, u: Upload, now: int, nanos: nat)
    requires ExpirySeconds(u.expiryMillis).Err?
    ensures StoreUpload(site, u, now, nanos).0 == site.(files := StoreEntry(site.files, u, nanos).0)
    ensures StoreEntry(site.files, u, nanos).1 ==> StoreEntry(site.files, u, nanos).0 != site.files
    ensures !StoreEntry(site.files, u, nanos).1 ==>
      StoreEntry(site.files, u, nanos).0 == LessCompanion(site.files, u, nanos)
  {
    var (files, stored) := StoreEntry(site.files, u, nanos);
    if stored {
      assert TargetPath(u) in files && TargetPath(u) !in site.files;
    } else {
      NotStoredFiles(site.files, u, nanos);
    }
  }

  /** It happens: a shortened URL whose name is taken by a paste is refused, and somebody's a.password is gone. */
  lemma RefusedUploadTakesCompanion(now: int, nanos: nat)
    ensures
      var other := Path(UrlDir, "a.password");
      var rows := map[
        1 := PasteRow(Some(1), "a", Path(RootDir, "a"), File, 0, 0, 1, None, "h", None, Some("a")),
        2 := PasteRow(Some(2), "a.password", other, Url, 0, 0, 1, None, "g", None, Some("a.password"))];
      var site := Site(map[Path(RootDir, "a") := Content("h"), other := Content("g")], Table(rows, 3));
      var (after, reply) := UploadPaste(site, Upload(3, Url, "a", None, "r", "r", 1, 0, false), now, nanos);
      reply.Conflict? && other !in after.files && 2 in after.pastes.rows
  {
    var other := Path(UrlDir, "a.password");
    var rows := map[
      1 := PasteRow(Some(1), "a", Path(RootDir, "a"), File, 0, 0, 1, None, "h", None, Some("a")),
      2 := PasteRow(Some(2), "a.password", other, Url, 0, 0, 1, None, "g", None, Some("a.password"))];
    var u := Upload(3, Url, "a", None, "r", "r", 1, 0, false);
    assert SidecarOf(TargetPath(u)) == other;
    assert "r"[0] == 'r' && !Blank("r");
    var cleared := ClearExpiredLink(rows, "a", now);
    assert 1 in cleared && HoldsLink(cleared[1], "a", now);
  }

  // ----- folded uploads -----

  /** The path of the upload or of its password file. */
  predicate OfPair(path: Path, target: Path) {
    path == target || path == SidecarOf(target)
  }

  predicate KeyedAs(row: PasteRow, u: Upload) {
    DedupCategory(u.kind).Some? && row.owner == Some(u.owner)
    && row.dedupKey == Some(DedupKey(DedupCategory(u.kind).value, u.storedHash))
  }

  /**
   The record that a stored upload would be folded into claims the very path of the upload: for a remote
   file the newest one of its content, if it is compatible and has a file, and otherwise the keyed one.
   */
  ghost predicate FoldsIntoItself(rows: PasteRows, files: Files, u: Upload, now: int) {
    var target := TargetPath(u);
    var latest := if u.kind.RemoteFile? then FindOwnerDuplicate(rows, u.owner, u.storedHash, now) else None;
    if latest.Some? && rows[latest.value].path in files + map[target := Content(u.storedHash)]
       && IsCompatibleDuplicate(u.kind, rows[latest.value].kind)
    then OfPair(rows[latest.value].path, target)
    else exists id :: id in rows && KeyedAs(rows[id], u) && OfPair(rows[id].path, target)
  }

  lemma {:induction false} ExistingIsKeyed(t: Table<PasteRow>, files: Files, p: NewPaste, now: int, passes: nat)
    requires RetryInsert(t, files, p, now, passes).1.Existing?
    ensures
      var r := RetryInsert(t, files, p, now, passes).1.record;
      && Deduplicable(p) && r.id in t.rows && t.rows[r.id].path == r.row.path && t.rows[r.id].owner == p.owner
      && t.rows[r.id].dedupKey == Some(DedupKey(DedupCategory(p.kind).value, p.contentHash))
    decreases passes
  {
    var (after, result) := InsertDeduplicated(t, p, now);
    if result.value.record.row.path !in files {
      ExistingIsKeyed(DeletePaste(after, result.value.record.id), files, p, now, passes - 1);
    }
  }

  /** A folded upload was folded by the late check of remote files, or into the keyed row of its content. */
  lemma FoldedRecord(site: Site, u: Upload, now: int)
    requires Schema(site.pastes) && RecordUpload(site, u, now).1.Folded?
    ensures
      var r := RecordUpload(site, u, now).1.record;
      && r.id in site.pastes.rows && site.pastes.rows[r.id].path == r.row.path && KeyedAs(site.pastes.rows[r.id], u)
      && r.row.path in site.files && RecordUpload(site, u, now).0.files == WithoutPair(site.files, TargetPath(u))
  {
    var expiresAt := ExpirySeconds(u.expiryMillis).value;
    ExistingIsKeyed(site.pastes, site.files, PasteOf(u, expiresAt), now, PERSIST_PASSES);
    RefusedRecord(site, u, now);
  }

  lemma KeyedRowIsUnique(rows: PasteRows, u: Upload, a: int, b: int)
    requires UniqueDedup(rows) && a in rows && b in rows && KeyedAs(rows[a], u) && KeyedAs(rows[b], u)
    ensures a == b
  {
    assert SameDedup(rows[a], rows[b]);
  }

  lemma FoldedFinish(site: Site, files: Files, u: Upload, now: int)
    requires Schema(site.pastes) && FinishUpload(site, u, now).1.Folded?
    requires u.kind.RemoteFile? ==> site.files == files[TargetPath(u) := Content(u.storedHash)]
    ensures
      var (after, reply) := FinishUpload(site, u, now);
      reply.record.row.path in after.files <==> !FoldsIntoItself(site.pastes.rows, files, u, now)
  {
    var rows := site.pastes.rows;
    var late := Suppresses(u) && u.kind.RemoteFile?;
    if !(late && CheckDuplicate(site, u, u.storedHash, now).Known?) {
      var left := if late then CheckDuplicate(site, u, u.storedHash, now).pastes else site.pastes;
      FoldedRecord(site.(pastes := left), u, now);
      var r := FinishUpload(site, u, now).1.record;
      assert r.id in rows && KeyedAs(rows[r.id], u) && rows[r.id].path == r.row.path;
      forall id | id in rows && KeyedAs(rows[id], u) ensures id == r.id {
        KeyedRowIsUnique(rows, u, id, r.id);
      }
    }
  }

  /**
   A folded upload is answered with a file that is still there exactly when the optimistic check answered it,
   or the record it is folded into does not claim the path of the upload itself (or of its password file).
   */
  lemma FoldedRecordIsServed(site: Site, u: Upload, now: int, nanos: nat)
    requires Schema(site.pastes) && UploadPaste(site, u, now, nanos).1.Folded?
    ensures
      var (after, reply) := UploadPaste(site, u, now, nanos);
      reply.record.row.path in after.files <==>
      AnsweredEarly(site, u, now) || !FoldsIntoItself(AfterGlance(site, u, now).rows, site.files, u, now)
  {
    UploadUnfolds(site, u, now, nanos);
    if !AnsweredEarly(site, u, now) {
      var glanced := site.(pastes := AfterGlance(site, u, now));
      FoldedFinish(glanced.(files := StoreEntry(site.files, u, nanos).0), site.files, u, now);
    }
  }

  /**
   Such a fold happens to every URL that a stale record of the same stored content claims, unless the check of
   the bytes as they were sent finds a record first: the new file goes, and the reply names it.
   */
  lemma StaleRecordOfSamePathSwallowsUpload(site: Site, u: Upload, now: int, nanos: nat, id: int)
    requires Schema(site.pastes) && TargetPath(u) !in site.files
    requires u.kind.Url? && Suppresses(u) && ValidNewPaste(PasteOf(u, None))
    requires OwnerDuplicates(site.pastes.rows, u.owner, u.rawHash, now) == {}
    requires id in site.pastes.rows && site.pastes.rows[id].path == TargetPath(u) && KeyedAs(site.pastes.rows[id], u)
    ensures
      var (after, reply) := UploadPaste(site, u, now, nanos);
      reply.Folded? && reply.record.id == id && TargetPath(u) !in after.files
  {
    UploadUnfolds(site, u, now, nanos);
    assert AfterGlance(site, u, now) == site.pastes;
    var p, key := PasteOf(u, None), DedupKey("url", u.storedHash);
    var cleared := ClearExpiredLink(site.pastes.rows, p.filename, now);
    assert id in cleared && cleared[id].owner == Some(u.owner) && cleared[id].dedupKey == Some(key);
    var found := FindDedup(cleared, u.owner, key);
    assert found.Some?;
    assert SameDedup(site.pastes.rows[found.value], site.pastes.rows[id]);
    assert found.value == id && cleared[id].path == TargetPath(u);
  }

  /** A concrete one: the URL is stored in normal form, so its bytes as sent do not find the stale record. */
  lemma NormalisedUrlIsSwallowed(now: int, nanos: nat)
    ensures
      var path := Path(UrlDir, "u");
      var rows := map[1 := PasteRow(Some(7), "u", path, Url, 0, 0, 5, None, "normal", Some("url:normal"), Some("u"))];
      var u := Upload(7, Url, "u", None, "sent", "normal", 5, 0, true);
      var (after, reply) := UploadPaste(Site(map[], Table(rows, 2)), u, now, nanos);
      reply.Folded? && reply.record.row.path == path && path !in after.files && u.rawHash != u.storedHash
  {
    var path := Path(UrlDir, "u");
    var rows := map[1 := PasteRow(Some(7), "u", path, Url, 0, 0, 5, None, "normal", Some("url:normal"), Some("u"))];
    var u := Upload(7, Url, "u", None, "sent", "normal", 5, 0, true);
    var site := Site(map[], Table(rows, 2));
    assert "sent"[0] == 's' && "normal"[0] == 'n' && !Blank("normal");
    assert DedupKey("url", "normal") == "url:normal";
    forall id ensures id !in OwnerDuplicates(rows, 7, "sent", now) {
    }
    StaleRecordOfSamePathSwallowsUpload(site, u, now, nanos, 1);
    assert UploadPaste(site, u, now, nanos).1.record.row.path == path;
  }
}
