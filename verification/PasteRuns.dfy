/** Runs of the paste table: unambiguous public links and owner-scoped deduplication. */
module PasteRuns {
  import opened Base
  import opened Pastes
  import opened Reconciliation

  /** A reserved key is the row's filename, and every owned unexpired row reserves its own. */
  predicate LinksOk(rows: PasteRows, now: int) {
    forall id :: id in rows ==>
      && (rows[id].linkKey.Some? ==> rows[id].linkKey == Some(rows[id].filename))
      && (rows[id].owner.Some? && Unexpired(rows[id].expiresAt, now) ==> rows[id].linkKey == Some(rows[id].filename))
  }

  /** A deduplication key names the category and the content of its row. */
  predicate KeyedByContent(row: PasteRow) {
    row.dedupKey.Some? ==>
      row.owner.Some? && DedupCategory(row.kind).Some? &&
        row.dedupKey == Some(DedupKey(DedupCategory(row.kind).value, row.contentHash))
  }

  predicate KeysOk(rows: PasteRows) {
    forall id :: id in rows ==> KeyedByContent(rows[id])
  }

  predicate PastesOk(t: Table<PasteRow>, now: int) {
    Schema(t) && LinksOk(t.rows, now) && KeysOk(t.rows)
  }

  datatype PasteOp =
    | Insert(paste: NewPaste)
    | InsertDedup(paste: NewPaste)
    | Delete(id: int)
    | DeletePath(path: Path)
    | Scan(scan: seq<NewPaste>)

  datatype PasteEvent = PasteEvent(now: int, op: PasteOp)

  ghost function PasteStep(t: Table<PasteRow>, e: PasteEvent): Table<PasteRow> {
    match e.op
    case Insert(p) => InsertPaste(t, p, e.now).0
    case InsertDedup(p) => InsertDeduplicated(t, p, e.now).0
    case Delete(id) => DeletePaste(t, id)
    case DeletePath(path) => DeleteByPath(t, path)
    case Scan(scan) => Reconcile(t, scan, e.now).0
  }

  ghost function PasteRun(t: Table<PasteRow>, es: seq<PasteEvent>): Table<PasteRow> {
    if es == [] then t else PasteStep(PasteRun(t, es[..|es|-1]), es[|es|-1])
  }

  predicate SameContent(row: PasteRow, p: NewPaste) {
    p.filename == row.filename && p.expiresAt == row.expiresAt && p.contentHash == row.contentHash
    && DedupCategory(p.kind) == DedupCategory(row.kind)
  }

  /** The scan finds known files as they were stored, and does not attribute unknown files to anyone. */
  predicate FaithfulScan(rows: PasteRows, scan: seq<NewPaste>) {
    && (forall id, k :: id in rows && 0 <= k < |scan| && scan[k].path == rows[id].path ==>
          SameContent(rows[id], scan[k]))
    && (forall k :: 0 <= k < |scan| && scan[k].path !in Paths(rows) ==> scan[k].owner.None?)
  }

  lemma InsertKeepsPastesOk(t: Table<PasteRow>, p: NewPaste, now: int)
    requires PastesOk(t, now)
    ensures PastesOk(InsertPaste(t, p, now).0, now) && PastesOk(InsertDeduplicated(t, p, now).0, now)
  {
    InsertKeepsSchema(t, p, now);
    var cleared := ClearExpiredLink(t.rows, p.filename, now);
    assert LinksOk(cleared, now) && KeysOk(cleared);
  }

  lemma {:induction false} UpsertAllOwners(t: Table<PasteRow>, scan: seq<NewPaste>, now: int)
    requires Schema(t) && forall k :: 0 <= k < |scan| && scan[k].path !in Paths(t.rows) ==> scan[k].owner.None?
    ensures forall id :: id in UpsertAll(t, scan, now).0.rows && id !in t.rows ==>
      UpsertAll(t, scan, now).0.rows[id].owner.None?
  {
    if scan != [] {
      var n := |scan| - 1;
      UpsertAllOwners(t, scan[..n], now);
      UpsertAllRows(t, scan[..n], now);
      var before := UpsertAll(t, scan[..n], now).0;
      UpsertRows(before, scan[n], now);
      assert Paths(t.rows) <= Paths(before.rows);
      UpsertOwner(before, scan[n], now);
    }
  }

  lemma UpsertOwner(t: Table<PasteRow>, p: NewPaste, now: int)
    requires Schema(t) && (p.path !in Paths(t.rows) ==> p.owner.None?)
    ensures forall id :: id in Upsert(t, p, now).0.rows && id !in t.rows ==> Upsert(t, p, now).0.rows[id].owner.None?
  {
    if p.path in Paths(t.rows) {
      var id :| id in t.rows && t.rows[id].path == p.path;
      assert PathTaken(t.rows, p.path);
    }
  }

  predicate SameRowContent(a: PasteRow, b: PasteRow) {
    a.filename == b.filename && a.expiresAt == b.expiresAt && a.contentHash == b.contentHash && a.linkKey == b.linkKey
    && DedupCategory(a.kind) == DedupCategory(b.kind) && a.owner == b.owner && a.dedupKey == b.dedupKey
  }

  /** After a faithful scan the rows are those of before, or unowned and without keys. */
  predicate Faithful(before: PasteRows, after: PasteRows) {
    forall id :: id in after ==>
      if id in before then SameRowContent(before[id], after[id])
      else after[id].owner.None? && after[id].dedupKey.None? && after[id].linkKey.None?
  }

  lemma FaithfulKeepsOk(before: PasteRows, after: PasteRows, now: int)
    requires LinksOk(before, now) && KeysOk(before) && Faithful(before, after)
    ensures LinksOk(after, now) && KeysOk(after)
  {
  }

  lemma ScannedContent(before: PasteRows, after: PasteRows, scan: seq<NewPaste>, id: int)
    requires FaithfulScan(before, scan) && id in before && id in after && SameIdentity(before[id], after[id])
    requires after[id].path in ScanPaths(scan) ==> AsLastScanned(scan, after[id])
    requires Paths(after) <= ScanPaths(scan)
    ensures SameRowContent(before[id], after[id])
  {
    assert after[id].path in Paths(after);
    var k :| 0 <= k < |scan| && Describes(scan[k], after[id]);
    assert scan[k].path == before[id].path;
  }

  lemma ScanIsFaithful(t: Table<PasteRow>, kept: Table<PasteRow>, scan: seq<NewPaste>, now: int)
    requires Schema(t) && FaithfulScan(t.rows, scan) && kept == t.(rows := t.rows - Absent(t.rows, scan))
    ensures Faithful(t.rows, UpsertAll(kept, scan, now).0.rows)
  {
    DropKeepsSchema(t, Absent(t.rows, scan));
    DropPaths(t.rows, scan);
    assert forall k :: 0 <= k < |scan| ==> scan[k].path in ScanPaths(scan);
    UpsertAllOwners(kept, scan, now);
    UpsertAllRows(kept, scan, now);
    KeptPaths(t.rows, kept.rows, scan);
    var after := UpsertAll(kept, scan, now).0.rows;
    forall id | id in after && id in kept.rows ensures SameRowContent(t.rows[id], after[id]) {
      ScannedContent(t.rows, after, scan, id);
    }
  }

  lemma ScanKeepsPastesOk(t: Table<PasteRow>, scan: seq<NewPaste>, now: int)
    requires PastesOk(t, now) && FaithfulScan(t.rows, scan)
    ensures PastesOk(Reconcile(t, scan, now).0, now)
  {
    ReconcileIsExact(t, scan, now);
    if Reconcile(t, scan, now).1.Ok? {
      var kept := t.(rows := t.rows - Absent(t.rows, scan));
      ScanIsFaithful(t, kept, scan, now);
      FaithfulKeepsOk(t.rows, UpsertAll(kept, scan, now).0.rows, now);
    }
  }

  lemma DeleteKeepsPastesOk(t: Table<PasteRow>, id: int, path: Path, now: int)
    requires PastesOk(t, now)
    ensures PastesOk(DeletePaste(t, id), now) && PastesOk(DeleteByPath(t, path), now)
  {
  }

  /** Scans of a run are taken of the table as it then is. */
  ghost predicate FaithfulScans(t: Table<PasteRow>, es: seq<PasteEvent>) {
    forall k :: 0 <= k < |es| && es[k].op.Scan? ==> FaithfulScan(PasteRun(t, es[..k]).rows, es[k].op.scan)
  }

  predicate PasteClock(es: seq<PasteEvent>, start: int) {
    (forall i, j :: 0 <= i < j < |es| ==> es[i].now <= es[j].now) && (es != [] ==> start <= es[0].now)
  }

  function LastNow(es: seq<PasteEvent>, start: int): int {
    if es == [] then start else es[|es|-1].now
  }

  lemma {:induction false} RunKeepsPastesOk(t: Table<PasteRow>, es: seq<PasteEvent>, start: int)
    requires PastesOk(t, start) && PasteClock(es, start) && FaithfulScans(t, es)
    ensures PastesOk(PasteRun(t, es), LastNow(es, start))
  {
    if es != [] {
      var n, e := |es| - 1, es[|es|-1];
      assert FaithfulScans(t, es[..n]) by {
        forall k | 0 <= k < n && es[..n][k].op.Scan?
          ensures FaithfulScan(PasteRun(t, es[..n][..k]).rows, es[..n][k].op.scan)
        {
          assert es[..n][..k] == es[..k] && es[..n][k] == es[k];
        }
      }
      RunKeepsPastesOk(t, es[..n], start);
      var before := PasteRun(t, es[..n]);
      assert LastNow(es[..n], start) <= e.now;
      assert PastesOk(before, e.now);
      match e.op
      case Insert(p) => InsertKeepsPastesOk(before, p, e.now);
      case InsertDedup(p) => InsertKeepsPastesOk(before, p, e.now);
      case Delete(id) => DeleteKeepsPastesOk(before, id, Path(RootDir, ""), e.now);
      case DeletePath(path) => DeleteKeepsPastesOk(before, 0, path, e.now);
      case Scan(scan) => ScanKeepsPastesOk(before, scan, e.now);
    }
  }

  // ----- links -----

  predicate OwnedVisible(row: PasteRow, filename: string, now: int) {
    row.owner.Some? && Unexpired(row.expiresAt, now) && row.filename == filename
  }

  predicate SharesOwnedLink(a: PasteRow, b: PasteRow, now: int) {
    OwnedVisible(a, b.filename, now) && OwnedVisible(b, b.filename, now)
  }

  predicate OneOwnedPerFilename(rows: PasteRows, now: int) {
    forall a, b :: a in rows && b in rows && SharesOwnedLink(rows[a], rows[b], now) ==> a == b
  }

  /** In every state of a run a public filename has at most one unexpired owned row. */
  lemma LinksAreUnambiguous(t: Table<PasteRow>, es: seq<PasteEvent>, start: int)
    requires PastesOk(t, start) && PasteClock(es, start) && FaithfulScans(t, es)
    ensures OneOwnedPerFilename(PasteRun(t, es).rows, LastNow(es, start))
  {
    RunKeepsPastesOk(t, es, start);
  }

  /** What the inserts answer, in terms of the visible rows alone. */
  lemma InsertOutcomes(t: Table<PasteRow>, p: NewPaste, now: int)
    requires PastesOk(t, now) && ValidNewPaste(p) && p.owner.Some? && Unexpired(p.expiresAt, now)
    ensures
      var result := InsertPaste(t, p, now).1;
      && (result == Err(PublicFilenameConflict(p.filename)) <==> FindByFilename(t.rows, p.filename, now) != {})
      && (result == Err(Database) <==> FindByFilename(t.rows, p.filename, now) == {} && PathTaken(t.rows, p.path))
      && (result.Err? ==> result == Err(Database) || result == Err(PublicFilenameConflict(p.filename)))
  {
    LinkIsVisible(t.rows, p.filename, now);
  }

  /**
   After the release of expired keys, the reservation check sees exactly the visible rows, and leaves the
   index nothing to reject.
   */
  lemma LinkIsVisible(rows: PasteRows, filename: string, now: int)
    requires LinksOk(rows, now)
    ensures
      var cleared := ClearExpiredLink(rows, filename, now);
      && (LinkActive(cleared, filename, now) <==> FindByFilename(rows, filename, now) != {})
      && (!LinkActive(cleared, filename, now) ==> !LinkIndexed(cleared, Some(filename)))
      && (forall path :: PathTaken(cleared, path) <==> PathTaken(rows, path))
  {
    var cleared := ClearExpiredLink(rows, filename, now);
    var found := FindByFilename(rows, filename, now);
    if LinkActive(cleared, filename, now) {
      var id :| id in cleared && HoldsLink(cleared[id], filename, now);
      assert id in found;
    }
    if found != {} {
      var id: int := AnyOf(found);
      assert id in cleared && HoldsLink(cleared[id], filename, now);
    }
    if LinkIndexed(cleared, Some(filename)) {
      var id :| id in cleared && cleared[id].linkKey == Some(filename);
      assert HoldsLink(cleared[id], filename, now);
    }
    forall path ensures PathTaken(cleared, path) <==> PathTaken(rows, path) {
      if PathTaken(rows, path) {
        var id :| id in rows && rows[id].path == path;
        assert cleared[id].path == path;
      }
    }
  }

  /** In a reachable state the unique link index never fires: the only unique violation left is the storage path. */
  lemma LinkIndexNeverFires(t: Table<PasteRow>, p: NewPaste, now: int)
    requires PastesOk(t, now)
    ensures InsertPaste(t, p, now).1 == Err(Database) ==> PathTaken(t.rows, p.path)
    ensures InsertDeduplicated(t, p, now).1 == Err(Database) ==> PathTaken(t.rows, p.path)
  {
    LinkIsVisible(t.rows, p.filename, now);
  }

  /** A fresh owned, unexpired paste is the only row its public filename finds. */
  lemma FreshPasteIsFoundAlone(t: Table<PasteRow>, p: NewPaste, now: int)
    requires PastesOk(t, now) && Unexpired(p.expiresAt, now) && p.owner.Some?
    ensures
      var (after, result) := InsertPaste(t, p, now);
      result.Ok? ==> FindByFilename(after.rows, p.filename, now) == {result.value.id}
    ensures
      var (after, result) := InsertDeduplicated(t, p, now);
      result.Ok? && result.value.Inserted? ==> FindByFilename(after.rows, p.filename, now) == {result.value.record.id}
  {
    LinkIsVisible(t.rows, p.filename, now);
    var cleared := ClearExpiredLink(t.rows, p.filename, now);
    assert FindByFilename(cleared, p.filename, now) == FindByFilename(t.rows, p.filename, now);
    AddedIsFound(cleared, t.nextId, RowOf(p, None, Some(p.filename)), now);
    if DedupCategory(p.kind).Some? {
      AddedIsFound(cleared, t.nextId,
                   RowOf(p, Some(DedupKey(DedupCategory(p.kind).value, p.contentHash)), Some(p.filename)), now);
    }
  }

  lemma AddedIsFound(rows: PasteRows, id: int, row: PasteRow, now: int)
    requires Unexpired(row.expiresAt, now)
    ensures FindByFilename(rows, row.filename, now) == {} ==> FindByFilename(rows[id := row], row.filename, now) == {id}
  {
    if FindByFilename(rows, row.filename, now) == {} {
      forall k | k in rows ensures !(rows[k].filename == row.filename && Unexpired(rows[k].expiresAt, now)) {
        assert k !in FindByFilename(rows, row.filename, now);
      }
      var found := FindByFilename(rows[id := row], row.filename, now);
      forall k ensures k in found <==> k == id {
      }
    }
  }

  // ----- deduplication -----

  /** The server's test before it answers with an existing paste. */
  predicate IsCompatibleDuplicate(requested: PasteType, existing: PasteType) {
    || ((requested.File? || requested.RemoteFile?) && (existing.File? || existing.RemoteFile?))
    || (requested.Url? && existing.Url?)
  }

  lemma CategoriesAreCompatibility(a: PasteType, b: PasteType)
    ensures DedupCategory(a).Some? && DedupCategory(a) == DedupCategory(b) <==> IsCompatibleDuplicate(a, b)
  {
    assert "file"[0] != "url"[0];
  }

  /** The printed key loses neither category nor content. */
  lemma DedupKeyIsInjective(a: PasteType, b: PasteType, h: string, g: string)
    requires DedupCategory(a).Some? && DedupCategory(b).Some?
    ensures DedupKey(DedupCategory(a).value, h) == DedupKey(DedupCategory(b).value, g) <==>
      DedupCategory(a) == DedupCategory(b) && h == g
  {
    var c, d := DedupCategory(a).value, DedupCategory(b).value;
    assert "file"[0] != "url"[0];
    var x, y := DedupKey(c, h), DedupKey(d, g);
    assert x[0] == c[0] && y[0] == d[0];
    assert x[|c| + 1..] == h && y[|d| + 1..] == g;
  }

  predicate SameKeyedContent(a: PasteRow, b: PasteRow) {
    a.dedupKey.Some? && b.dedupKey.Some? && a.owner == b.owner
    && DedupCategory(a.kind) == DedupCategory(b.kind) && a.contentHash == b.contentHash
  }

  predicate OneKeyedPerContent(rows: PasteRows) {
    forall a, b :: a in rows && b in rows && SameKeyedContent(rows[a], rows[b]) ==> a == b
  }

  /** In every state of a run at most one keyed row has a given owner, category and content. */
  lemma ContentIsKeyedOnce(t: Table<PasteRow>, es: seq<PasteEvent>, start: int)
    requires PastesOk(t, start) && PasteClock(es, start) && FaithfulScans(t, es)
    ensures OneKeyedPerContent(PasteRun(t, es).rows)
  {
    RunKeepsPastesOk(t, es, start);
  }

  /** A keyed row of the same owner that the compatibility test would accept. */
  predicate KeyedFor(row: PasteRow, p: NewPaste) {
    row.dedupKey.Some? && row.owner == p.owner && IsCompatibleDuplicate(p.kind, row.kind)
  }

  /** A duplicate is the owner's own paste of the same content and of a compatible type, and an insert found none. */
  lemma DuplicateIsCompatible(t: Table<PasteRow>, p: NewPaste, now: int)
    requires PastesOk(t, now) && InsertDeduplicated(t, p, now).1.Ok?
    ensures
      var result := InsertDeduplicated(t, p, now).1.value;
      && (result.Duplicate? ==>
            result.record.row.owner == p.owner && result.record.row.contentHash == p.contentHash
            && IsCompatibleDuplicate(p.kind, result.record.row.kind) && result.record.id in t.rows)
      && (result.Inserted? ==> forall id :: id in t.rows && KeyedFor(t.rows[id], p) ==>
            t.rows[id].contentHash != p.contentHash)
  {
    var rows := ClearExpiredLink(t.rows, p.filename, now);
    var found := FindDedup(rows, p.owner.value, DedupKey(DedupCategory(p.kind).value, p.contentHash));
    if found.Some? {
      var row := rows[found.value];
      assert KeyedByContent(t.rows[found.value]) && KeyedByContent(row);
      DedupKeyIsInjective(p.kind, row.kind, p.contentHash, row.contentHash);
      CategoriesAreCompatibility(p.kind, row.kind);
    } else {
      forall id | id in t.rows && KeyedFor(t.rows[id], p) ensures t.rows[id].contentHash != p.contentHash {
        assert KeyedByContent(t.rows[id]) && rows[id].dedupKey == t.rows[id].dedupKey &&
          rows[id].owner == t.rows[id].owner;
        CategoriesAreCompatibility(p.kind, t.rows[id].kind);
      }
    }
  }

  // ----- every answer of the inserts -----

  /** The row is as it was, or has lost the link reservation of an expired row. */
  predicate Released(before: PasteRow, after: PasteRow, now: int) {
    after == before || (!Unexpired(before.expiresAt, now) && after == before.(linkKey := None))
  }

  predicate OnlyReleases(before: PasteRows, after: PasteRows, now: int) {
    after.Keys == before.Keys && forall id :: id in before ==> Released(before[id], after[id], now)
  }

  /** One row more, at the next id, and otherwise only releases. */
  predicate AddsRow(before: Table<PasteRow>, after: Table<PasteRow>, row: PasteRow, now: int) {
    && after.nextId == before.nextId + 1 && after.rows.Keys == before.rows.Keys + {before.nextId}
    && after.rows[before.nextId] == row
    && forall id :: id in before.rows && id != before.nextId ==> Released(before.rows[id], after.rows[id], now)
  }

  predicate VisibleAs(rows: PasteRows, filename: string, now: int) {
    exists id :: id in rows && rows[id].filename == filename && Unexpired(rows[id].expiresAt, now)
  }

  /** A row that makes the paste a duplicate: the owner's, keyed, of a compatible type and the same content. */
  predicate Duplicates(row: PasteRow, p: NewPaste) {
    KeyedFor(row, p) && row.contentHash == p.contentHash
  }

  predicate Reserves(p: NewPaste, now: int) {
    p.owner.Some? && Unexpired(p.expiresAt, now)
  }

  function StoredRow(p: NewPaste, dedupKey: Option<string>, linkKey: Option<string>): PasteRow {
    PasteRow(p.owner, p.filename, p.path, p.kind, p.createdAt, p.createdAt, p.size, p.expiresAt, p.contentHash,
             dedupKey, linkKey)
  }

  lemma VisibleIsFound(rows: PasteRows, filename: string, now: int)
    ensures VisibleAs(rows, filename, now) <==> FindByFilename(rows, filename, now) != {}
  {
    var found := FindByFilename(rows, filename, now);
    if found != {} {
      var id: int := AnyOf(found);
      assert id in found;
    }
    if VisibleAs(rows, filename, now) {
      var id :| id in rows && rows[id].filename == filename && Unexpired(rows[id].expiresAt, now);
      assert id in found;
    }
  }

  /**
   The plain insert stores a valid paste unless it reserves a filename that is visible or its path has a row;
   an error changes nothing.
   */
  lemma InsertIsExact(t: Table<PasteRow>, p: NewPaste, now: int)
    requires PastesOk(t, now)
    ensures
      var (after, result) := InsertPaste(t, p, now);
      var link := if Reserves(p, now) then Some(p.filename) else None;
      var blocked := Reserves(p, now) && VisibleAs(t.rows, p.filename, now);
      && (result.Err? ==> after == t)
      && (!ValidNewPaste(p) ==> result == Err(InvalidInput))
      && (ValidNewPaste(p) && blocked ==> result == Err(PublicFilenameConflict(p.filename)))
      && (ValidNewPaste(p) && !blocked && PathTaken(t.rows, p.path) ==> result == Err(Database))
      && (ValidNewPaste(p) && !blocked && !PathTaken(t.rows, p.path) ==>
            && result == Ok(Record(t.nextId, StoredRow(p, None, link)))
            && AddsRow(t, after, StoredRow(p, None, link), now))
  {
    LinkIsVisible(t.rows, p.filename, now);
    VisibleIsFound(t.rows, p.filename, now);
  }

  lemma KeyedIsDuplicate(t: Table<PasteRow>, p: NewPaste, now: int)
    requires PastesOk(t, now) && Deduplicable(p)
    ensures
      var rows := ClearExpiredLink(t.rows, p.filename, now);
      var found := FindDedup(rows, p.owner.value, DedupKey(DedupCategory(p.kind).value, p.contentHash));
      if found.Some? then found.value in t.rows && Duplicates(t.rows[found.value], p)
      else forall id :: id in t.rows ==> !Duplicates(t.rows[id], p)
  {
    var rows := ClearExpiredLink(t.rows, p.filename, now);
    forall id | id in t.rows && t.rows[id].owner == p.owner
      ensures t.rows[id].dedupKey == Some(DedupKey(DedupCategory(p.kind).value, p.contentHash)) <==>
        Duplicates(t.rows[id], p)
    {
      assert KeyedByContent(t.rows[id]);
      CategoriesAreCompatibility(p.kind, t.rows[id].kind);
      if DedupCategory(t.rows[id].kind).Some? {
        DedupKeyIsInjective(p.kind, t.rows[id].kind, p.contentHash, t.rows[id].contentHash);
      }
    }
    assert forall id :: id in rows ==> rows[id].owner == t.rows[id].owner && rows[id].dedupKey == t.rows[id].dedupKey;
  }

  /**
   The deduplicating insert answers with the duplicate if there is one. Otherwise it stores the paste, unless
   the filename is visible or the path has a row; an error changes nothing.
   */
  lemma DeduplicationIsExact(t: Table<PasteRow>, p: NewPaste, now: int)
    requires PastesOk(t, now)
    ensures
      var (after, result) := InsertDeduplicated(t, p, now);
      var duplicate := exists id :: id in t.rows && Duplicates(t.rows[id], p);
      var free := !VisibleAs(t.rows, p.filename, now) && !PathTaken(t.rows, p.path);
      && (result.Err? ==> after == t)
      && (!Deduplicable(p) ==> result == Err(InvalidInput))
      && (Deduplicable(p) && duplicate ==>
            && result.Ok? && result.value.Duplicate? && OnlyReleases(t.rows, after.rows, now)
            && after.nextId == t.nextId && result.value.record.id in t.rows
            && Duplicates(t.rows[result.value.record.id], p)
            && result.value.record.row == after.rows[result.value.record.id])
      && (Deduplicable(p) && !duplicate && VisibleAs(t.rows, p.filename, now) ==>
            result == Err(PublicFilenameConflict(p.filename)))
      && (Deduplicable(p) && !duplicate && !VisibleAs(t.rows, p.filename, now) && PathTaken(t.rows, p.path) ==>
            result == Err(Database))
      && (Deduplicable(p) && !duplicate && free ==>
            var row := StoredRow(p, Some(DedupKey(DedupCategory(p.kind).value, p.contentHash)), Some(p.filename));
            result == Ok(Inserted(Record(t.nextId, row))) && AddsRow(t, after, row, now))
  {
    if Deduplicable(p) {
      KeyedIsDuplicate(t, p, now);
      LinkIsVisible(t.rows, p.filename, now);
      VisibleIsFound(t.rows, p.filename, now);
    }
  }
}
