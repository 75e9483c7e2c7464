/** Startup reconciliation of the paste table with a scan of the upload directory. */
module Reconciliation {
  import opened Base
  import opened Pastes

  datatype Tally = Tally(inserted: nat, removed: nat)

  function ScanPaths(scan: seq<NewPaste>): set<Path> {
    set k | 0 <= k < |scan| :: scan[k].path
  }

  function Paths(rows: PasteRows): set<Path> {
    set id | id in rows :: rows[id].path
  }

  function WithPath(rows: PasteRows, path: Path): set<int> {
    set id | id in rows && rows[id].path == path
  }

  /** INSERT ... ON CONFLICT(storage_path) DO NOTHING, then UPDATE when nothing was inserted. */
  function Upsert(t: Table<PasteRow>, p: NewPaste, now: int): (Table<PasteRow>, nat) {
    if PathTaken(t.rows, p.path) then
      var rows := map id | id in t.rows ::
        if t.rows[id].path == p.path then Refreshed(t.rows[id], p, now) else t.rows[id];
      (t.(rows := rows), 0)
    else (Table(t.rows[t.nextId := RowOf(p, None, None).(updatedAt := now)], t.nextId + 1), 1)
  }

  function Refreshed(row: PasteRow, p: NewPaste, now: int): PasteRow {
    row.(filename := p.filename, kind := p.kind, updatedAt := now, size := p.size, expiresAt := p.expiresAt,
         contentHash := p.contentHash)
  }

  function UpsertAll(t: Table<PasteRow>, scan: seq<NewPaste>, now: int): (Table<PasteRow>, nat) {
    if scan == [] then (t, 0)
    else
      var n := |scan| - 1;
      var (before, inserted) := UpsertAll(t, scan[..n], now);
      var (after, one) := Upsert(before, scan[n], now);
      (after, inserted + one)
  }

  function Absent(rows: PasteRows, scan: seq<NewPaste>): set<int> {
    set id | id in rows && rows[id].path !in ScanPaths(scan)
  }

  function Reconcile(t: Table<PasteRow>, scan: seq<NewPaste>, now: int): (Table<PasteRow>, Result<Tally>) {
    if exists k :: 0 <= k < |scan| && !ValidNewPaste(scan[k]) then (t, Err(InvalidInput))
    else
      var gone := Absent(t.rows, scan);
      var (after, inserted) := UpsertAll(t.(rows := t.rows - gone), scan, now);
      (after, Ok(Tally(inserted, |gone|)))
  }

  // ----- what one pass over the scan does -----

  predicate SameIdentity(a: PasteRow, b: PasteRow) {
    a.owner == b.owner && a.path == b.path && a.createdAt == b.createdAt && a.dedupKey == b.dedupKey &&
      a.linkKey == b.linkKey
  }

  predicate Describes(p: NewPaste, row: PasteRow) {
    p.path == row.path && p.filename == row.filename && p.kind == row.kind && p.size == row.size
    && p.expiresAt == row.expiresAt && p.contentHash == row.contentHash
  }

  /** The row carries what the last scan entry of its path says. */
  predicate AsLastScanned(scan: seq<NewPaste>, row: PasteRow) {
    exists k :: 0 <= k < |scan| && Describes(scan[k], row) && forall j :: k < j < |scan| ==> scan[j].path != row.path
  }

  predicate RowsAfter(before: PasteRows, after: PasteRows, scan: seq<NewPaste>, nextId: int, now: int) {
    && (forall id :: id in before ==> id in after && SameIdentity(before[id], after[id]))
    && (forall id :: id in after && id !in before ==>
          id >= nextId && after[id].dedupKey.None? && after[id].linkKey.None?)
    && (forall id :: id in after && after[id].path in ScanPaths(scan) ==>
          AsLastScanned(scan, after[id]) && after[id].updatedAt == now)
    && (forall id :: id in after && after[id].path !in ScanPaths(scan) ==> id in before && after[id] == before[id])
  }

  lemma {:induction false} ImageCard(rows: PasteRows, ids: set<int>)
    requires ids <= rows.Keys && UniquePaths(rows)
    ensures |set id | id in ids :: rows[id].path| == |ids|
    decreases ids
  {
    var image := set id | id in ids :: rows[id].path;
    if ids != {} {
      var one := AnyOf(ids);
      ImageCard(rows, ids - {one});
      var rest := set id | id in ids - {one} :: rows[id].path;
      forall path ensures path in image <==> path in rest + {rows[one].path} {
        if path in image {
          var id :| id in ids && rows[id].path == path;
          assert id == one || id in ids - {one};
        }
      }
      assert image == rest + {rows[one].path};
      assert rows[one].path !in rest;
    }
  }

  lemma ScanPathsOfMore(scan: seq<NewPaste>, p: NewPaste)
    ensures ScanPaths(scan + [p]) == ScanPaths(scan) + {p.path}
  {
    var more := scan + [p];
    forall path ensures path in ScanPaths(more) <==> path in ScanPaths(scan) + {p.path} {
      if path in ScanPaths(scan) {
        var k :| 0 <= k < |scan| && scan[k].path == path;
        assert more[k].path == path;
      }
      assert more[|scan|].path == p.path;
      if path in ScanPaths(more) {
        var k :| 0 <= k < |more| && more[k].path == path;
        assert k < |scan| ==> scan[k].path == path;
      }
    }
  }

  lemma StillLast(scan: seq<NewPaste>, p: NewPaste, row: PasteRow)
    requires AsLastScanned(scan, row) && p.path != row.path
    ensures AsLastScanned(scan + [p], row)
  {
    var k :| 0 <= k < |scan| && Describes(scan[k], row) && forall j :: k < j < |scan| ==> scan[j].path != row.path;
    var more := scan + [p];
    assert Describes(more[k], row);
    forall j | k < j < |more| ensures more[j].path != row.path {
      assert j < |scan| ==> more[j] == scan[j];
    }
  }

  lemma NowLast(scan: seq<NewPaste>, p: NewPaste, row: PasteRow)
    requires Describes(p, row)
    ensures AsLastScanned(scan + [p], row)
  {
    assert Describes((scan + [p])[|scan|], row);
  }

  /** What one upsert leaves of the rows. */
  predicate UpsertEffect(before: PasteRows, after: PasteRows, p: NewPaste, nextId: int, now: int) {
    && (forall id :: id in before ==> id in after && SameIdentity(before[id], after[id]))
    && (forall id :: id in after && after[id].path == p.path ==> Describes(p, after[id]) && after[id].updatedAt == now)
    && (forall id :: id in after && after[id].path != p.path ==> id in before && after[id] == before[id])
    && (forall id :: id in after && id !in before ==>
          id == nextId && after[id].path == p.path && after[id].dedupKey.None? && after[id].linkKey.None?)
  }

  lemma UpsertRows(t: Table<PasteRow>, p: NewPaste, now: int)
    requires Schema(t)
    ensures UpsertEffect(t.rows, Upsert(t, p, now).0.rows, p, t.nextId, now)
    ensures Upsert(t, p, now).0.nextId >= t.nextId
  {
  }

  lemma UpsertKeepsSchema(t: Table<PasteRow>, p: NewPaste, now: int)
    requires Schema(t)
    ensures Schema(Upsert(t, p, now).0)
  {
    if !PathTaken(t.rows, p.path) {
      AddKeepsSchema(t, RowOf(p, None, None).(updatedAt := now));
    }
  }

  lemma UpsertPaths(t: Table<PasteRow>, p: NewPaste, now: int)
    requires Schema(t)
    ensures
      var (after, one) := Upsert(t, p, now);
      Paths(after.rows) == Paths(t.rows) + {p.path} && one == (if p.path in Paths(t.rows) then 0 else 1) &&
        |after.rows| == |t.rows| + one
  {
    var rows, after := t.rows, Upsert(t, p, now).0.rows;
    if PathTaken(rows, p.path) {
      var hit :| hit in rows && rows[hit].path == p.path;
      assert after.Keys == rows.Keys;
      forall path ensures path in Paths(after) <==> path in Paths(rows) {
        if path in Paths(rows) {
          var id :| id in rows && rows[id].path == path;
          assert after[id].path == path;
        }
      }
      assert Paths(after) == Paths(rows) && p.path in Paths(rows);
    } else {
      assert after.Keys == rows.Keys + {t.nextId};
      assert p.path !in Paths(rows);
      forall path ensures path in Paths(after) <==> path in Paths(rows) + {p.path} {
        if path in Paths(rows) {
          var id :| id in rows && rows[id].path == path;
          assert after[id].path == path;
        }
        assert after[t.nextId].path == p.path;
      }
      assert Paths(after) == Paths(rows) + {p.path};
    }
  }

  lemma {:induction false} UpsertAllRows(t: Table<PasteRow>, scan: seq<NewPaste>, now: int)
    requires Schema(t)
    ensures Schema(UpsertAll(t, scan, now).0) && UpsertAll(t, scan, now).0.nextId >= t.nextId
    ensures RowsAfter(t.rows, UpsertAll(t, scan, now).0.rows, scan, t.nextId, now)
    ensures Paths(UpsertAll(t, scan, now).0.rows) == Paths(t.rows) + ScanPaths(scan)
  {
    if scan != [] {
      var n := |scan| - 1;
      var shorter, p := scan[..n], scan[n];
      assert scan == shorter + [p];
      UpsertAllRows(t, shorter, now);
      var before := UpsertAll(t, shorter, now).0;
      UpsertKeepsSchema(before, p, now);
      UpsertRows(before, p, now);
      UpsertPaths(before, p, now);
      ScanPathsOfMore(shorter, p);
      RowsAfterOneMore(t.rows, before, Upsert(before, p, now).0.rows, shorter, p, t.nextId, now);
    }
  }

  lemma UpsertAllPaths(t: Table<PasteRow>, scan: seq<NewPaste>, now: int)
    requires Schema(t)
    ensures Schema(UpsertAll(t, scan, now).0) &&
      Paths(UpsertAll(t, scan, now).0.rows) == Paths(t.rows) + ScanPaths(scan)
  {
    UpsertAllRows(t, scan, now);
  }

  lemma OneMorePath(scanned: set<Path>, known: set<Path>, path: Path)
    ensures |scanned + {path} - known| == |scanned - known| + (if path in known + scanned then 0 else 1)
  {
    if path in known + scanned {
      assert scanned + {path} - known == scanned - known;
    } else {
      assert scanned + {path} - known == (scanned - known) + {path};
    }
  }

  lemma {:induction false} UpsertAllCounts(t: Table<PasteRow>, scan: seq<NewPaste>, now: int)
    requires Schema(t)
    ensures UpsertAll(t, scan, now).1 == |ScanPaths(scan) - Paths(t.rows)|
    ensures |UpsertAll(t, scan, now).0.rows| == |t.rows| + UpsertAll(t, scan, now).1
  {
    if scan != [] {
      var n := |scan| - 1;
      var shorter, p := scan[..n], scan[n];
      assert scan == shorter + [p];
      UpsertAllCounts(t, shorter, now);
      UpsertAllPaths(t, shorter, now);
      UpsertPaths(UpsertAll(t, shorter, now).0, p, now);
      ScanPathsOfMore(shorter, p);
      OneMorePath(ScanPaths(shorter), Paths(t.rows), p.path);
    }
  }

  lemma RowsAfterOneMore(start: PasteRows, before: Table<PasteRow>, after: PasteRows, shorter: seq<NewPaste>,
                         p: NewPaste, nextId: int, now: int)
    requires RowsAfter(start, before.rows, shorter, nextId, now) && Schema(before) && before.nextId >= nextId
    requires after == Upsert(before, p, now).0.rows
    ensures RowsAfter(start, after, shorter + [p], nextId, now)
  {
    UpsertRows(before, p, now);
    ScanPathsOfMore(shorter, p);
    var rows, scan := before.rows, shorter + [p];
    forall id | id in after && id !in start
      ensures id >= nextId && after[id].dedupKey.None? && after[id].linkKey.None?
    {
      if id in rows {
        assert SameIdentity(rows[id], after[id]);
      }
    }
    forall id | id in after && after[id].path in ScanPaths(scan)
      ensures AsLastScanned(scan, after[id]) && after[id].updatedAt == now
    {
      if after[id].path == p.path {
        NowLast(shorter, p, after[id]);
      } else {
        assert id in rows && after[id] == rows[id];
        StillLast(shorter, p, rows[id]);
      }
    }
  }

  // ----- the theorems -----

  lemma DropKeepsSchema(t: Table<PasteRow>, gone: set<int>)
    requires Schema(t)
    ensures Schema(t.(rows := t.rows - gone))
  {
  }

  lemma DropPaths(rows: PasteRows, scan: seq<NewPaste>)
    requires UniquePaths(rows)
    ensures
      var gone := Absent(rows, scan);
      && Paths(rows - gone) == Paths(rows) * ScanPaths(scan)
      && |gone| == |Paths(rows) - ScanPaths(scan)|
      && |rows - gone| == |rows| - |gone|
  {
    var gone := Absent(rows, scan);
    var left := rows - gone;
    forall path ensures path in Paths(left) <==> path in Paths(rows) * ScanPaths(scan) {
      if path in Paths(rows) * ScanPaths(scan) {
        var id :| id in rows && rows[id].path == path;
        assert left[id].path == path;
      }
    }
    assert Paths(left) == Paths(rows) * ScanPaths(scan);
    ImageCard(rows, gone);
    var image := set id | id in gone :: rows[id].path;
    forall path ensures path in image <==> path in Paths(rows) - ScanPaths(scan) {
      if path in Paths(rows) - ScanPaths(scan) {
        var id :| id in rows && rows[id].path == path;
        assert id in gone;
      }
    }
    assert image == Paths(rows) - ScanPaths(scan);
    assert left.Keys == rows.Keys - gone && gone <= rows.Keys;
    assert |left| == |left.Keys| && |rows| == |rows.Keys|;
  }

  /** The table has a row for each scanned path and no other; rows that survive keep their identity. */
  predicate Reconciled(before: Table<PasteRow>, after: PasteRows, scan: seq<NewPaste>, now: int) {
    && Paths(after) == ScanPaths(scan)
    && (forall id :: id in before.rows ==> (id in after <==> before.rows[id].path in ScanPaths(scan)))
    && (forall id :: id in before.rows && id in after ==> SameIdentity(before.rows[id], after[id]))
    && (forall id :: id in after && id !in before.rows ==> id >= before.nextId)
    && (forall id :: id in after ==> AsLastScanned(scan, after[id]) && after[id].updatedAt == now)
  }

  /** The tally counts the two set differences, and accounts for the number of rows. */
  predicate Tallied(before: PasteRows, after: PasteRows, scan: seq<NewPaste>, tally: Tally) {
    && tally.inserted == |ScanPaths(scan) - Paths(before)|
    && tally.removed == |Paths(before) - ScanPaths(scan)|
    && |after| == |before| - tally.removed + tally.inserted
  }

  lemma RowsReconciled(before: Table<PasteRow>, kept: PasteRows, after: PasteRows, scan: seq<NewPaste>, now: int)
    requires Schema(before) && kept == before.rows - Absent(before.rows, scan)
    requires RowsAfter(kept, after, scan, before.nextId, now) && Paths(after) == ScanPaths(scan)
    ensures Reconciled(before, after, scan, now)
  {
    forall id | id in after ensures after[id].path in ScanPaths(scan) {
      assert after[id].path in Paths(after);
    }
  }

  lemma ReconciledTable(t: Table<PasteRow>, kept: Table<PasteRow>, scan: seq<NewPaste>, now: int)
    requires Schema(t) && kept == t.(rows := t.rows - Absent(t.rows, scan))
    ensures Schema(UpsertAll(kept, scan, now).0) && Reconciled(t, UpsertAll(kept, scan, now).0.rows, scan, now)
  {
    DropKeepsSchema(t, Absent(t.rows, scan));
    KeptPaths(t.rows, kept.rows, scan);
    UpsertAllRows(kept, scan, now);
    RowsReconciled(t, kept.rows, UpsertAll(kept, scan, now).0.rows, scan, now);
  }

  lemma KeptPaths(rows: PasteRows, kept: PasteRows, scan: seq<NewPaste>)
    requires kept == rows - Absent(rows, scan)
    ensures Paths(kept) + ScanPaths(scan) == ScanPaths(scan)
  {
    forall path | path in Paths(kept) ensures path in ScanPaths(scan) {
      var id :| id in kept && kept[id].path == path;
      assert id !in Absent(rows, scan);
    }
  }

  lemma ReconciledCounts(t: Table<PasteRow>, scan: seq<NewPaste>, now: int)
    requires Schema(t)
    ensures
      var gone := Absent(t.rows, scan);
      var (after, inserted) := UpsertAll(t.(rows := t.rows - gone), scan, now);
      Tallied(t.rows, after.rows, scan, Tally(inserted, |gone|))
  {
    var gone := Absent(t.rows, scan);
    DropKeepsSchema(t, gone);
    DropPaths(t.rows, scan);
    UpsertAllCounts(t.(rows := t.rows - gone), scan, now);
    var paths, known := ScanPaths(scan), Paths(t.rows);
    assert paths - known * paths == paths - known;
  }

  /** Reconciliation is exact, and refused only for a scan entry that could not be stored. */
  lemma ReconcileIsExact(t: Table<PasteRow>, scan: seq<NewPaste>, now: int)
    requires Schema(t)
    ensures Reconcile(t, scan, now).1.Ok? <==> forall k :: 0 <= k < |scan| ==> ValidNewPaste(scan[k])
    ensures Schema(Reconcile(t, scan, now).0)
    ensures Reconcile(t, scan, now).1.Ok? ==>
      Reconciled(t, Reconcile(t, scan, now).0.rows, scan, now) &&
      Tallied(t.rows, Reconcile(t, scan, now).0.rows, scan, Reconcile(t, scan, now).1.value)
  {
    ReconciledTable(t, t.(rows := t.rows - Absent(t.rows, scan)), scan, now);
    ReconciledCounts(t, scan, now);
  }

  lemma SameLastScan(scan: seq<NewPaste>, a: PasteRow, b: PasteRow)
    requires AsLastScanned(scan, a) && AsLastScanned(scan, b) && a.path == b.path
    ensures a.filename == b.filename && a.kind == b.kind && a.size == b.size && a.expiresAt == b.expiresAt &&
      a.contentHash == b.contentHash
  {
    var i :| 0 <= i < |scan| && Describes(scan[i], a) && forall j :: i < j < |scan| ==> scan[j].path != a.path;
    var j :| 0 <= j < |scan| && Describes(scan[j], b) && forall k :: j < k < |scan| ==> scan[k].path != b.path;
    assert i == j;
  }

  /** A second run on the same scan inserts and removes nothing, and touches nothing but the update time. */
  lemma ReconcileIsIdempotent(t: Table<PasteRow>, scan: seq<NewPaste>, now: int, later: int)
    requires Schema(t) && Reconcile(t, scan, now).1.Ok?
    ensures
      var once := Reconcile(t, scan, now).0;
      var (twice, result) := Reconcile(once, scan, later);
      && result == Ok(Tally(0, 0))
      && twice.rows.Keys == once.rows.Keys
      && forall id :: id in once.rows ==> twice.rows[id] == once.rows[id].(updatedAt := later)
  {
    var once := Reconcile(t, scan, now).0;
    ReconcileIsExact(t, scan, now);
    ReconcileIsExact(once, scan, later);
    assert ScanPaths(scan) - Paths(once.rows) == {} && Paths(once.rows) - ScanPaths(scan) == {};
    ReconciledTwice(t, once, Reconcile(once, scan, later).0.rows, scan, now, later);
  }

  lemma ReconciledTwice(t: Table<PasteRow>, once: Table<PasteRow>, twice: PasteRows, scan: seq<NewPaste>, now: int,
                        later: int)
    requires Reconciled(t, once.rows, scan, now) && Reconciled(once, twice, scan, later) && |twice| == |once.rows|
    ensures twice.Keys == once.rows.Keys
    ensures forall id :: id in once.rows ==> twice[id] == once.rows[id].(updatedAt := later)
  {
    forall id | id in once.rows ensures id in twice && twice[id] == once.rows[id].(updatedAt := later) {
      assert once.rows[id].path in Paths(once.rows);
      SameLastScan(scan, once.rows[id], twice[id]);
    }
    SameCard(once.rows.Keys, twice.Keys);
  }

  // ----- partial scans -----

  function AsNew(row: PasteRow): NewPaste {
    NewPaste(row.owner, row.filename, row.path, row.kind, row.createdAt, row.size, row.expiresAt, row.contentHash)
  }

  /** Rows of unread paths are appended to an incomplete scan. */
  function Retained(scan: seq<NewPaste>, existing: seq<Record>): seq<NewPaste> {
    if existing == [] then scan
    else
      var n := |existing| - 1;
      var before := Retained(scan, existing[..n]);
      if existing[n].row.path in ScanPaths(before) then before else before + [AsNew(existing[n].row)]
  }

  /** The loop that grows the path set and the scan together. */
  method RetainExistingPastes(scan: seq<NewPaste>, existing: seq<Record>) returns (retained: seq<NewPaste>)
    ensures retained == Retained(scan, existing)
  {
    retained := scan;
    var paths := ScanPaths(scan);
    for i := 0 to |existing|
      invariant retained == Retained(scan, existing[..i])
      invariant paths == ScanPaths(retained)
    {
      var row := existing[i].row;
      assert existing[..i+1][..i] == existing[..i];
      if row.path !in paths {
        ScanPathsOfMore(retained, AsNew(row));
        paths := paths + {row.path};
        retained := retained + [AsNew(row)];
      }
    }
    assert existing[..|existing|] == existing;
  }

  /** A listing of the unexpired rows, in any order. */
  predicate ListsVisible(existing: seq<Record>, rows: PasteRows, listedAt: int) {
    && (forall k :: 0 <= k < |existing| ==>
          Visible(rows, existing[k].id, listedAt) && existing[k].row == rows[existing[k].id])
    && (forall id :: id in rows && Visible(rows, id, listedAt) ==> Record(id, rows[id]) in existing)
  }

  function ListedPaths(existing: seq<Record>): set<Path> {
    set k | 0 <= k < |existing| :: existing[k].row.path
  }

  lemma ListedPathsOfMore(existing: seq<Record>, r: Record)
    ensures ListedPaths(existing + [r]) == ListedPaths(existing) + {r.row.path}
  {
    var more := existing + [r];
    forall path ensures path in ListedPaths(more) <==> path in ListedPaths(existing) + {r.row.path} {
      if path in ListedPaths(existing) {
        var k :| 0 <= k < |existing| && existing[k].row.path == path;
        assert more[k].row.path == path;
      }
      assert more[|existing|].row.path == r.row.path;
      if path in ListedPaths(more) {
        var k :| 0 <= k < |more| && more[k].row.path == path;
        assert k < |existing| ==> existing[k].row.path == path;
      }
    }
  }

  lemma {:induction false} RetainedPaths(scan: seq<NewPaste>, existing: seq<Record>)
    ensures ScanPaths(Retained(scan, existing)) == ScanPaths(scan) + ListedPaths(existing)
  {
    if existing == [] {
      assert ListedPaths(existing) == {};
    } else {
      var n := |existing| - 1;
      RetainedPaths(scan, existing[..n]);
      assert existing == existing[..n] + [existing[n]];
      ListedPathsOfMore(existing[..n], existing[n]);
      ScanPathsOfMore(Retained(scan, existing[..n]), AsNew(existing[n].row));
    }
  }

  /** An entry that comes from the scan, or restates a listed row. */
  predicate Restates(scan: seq<NewPaste>, existing: seq<Record>, p: NewPaste) {
    p in scan || exists i :: 0 <= i < |existing| && p == AsNew(existing[i].row)
  }

  lemma {:induction false} RetainedRestates(scan: seq<NewPaste>, existing: seq<Record>, p: NewPaste)
    requires p in Retained(scan, existing)
    ensures Restates(scan, existing, p)
  {
    if existing != [] {
      var n := |existing| - 1;
      if p in Retained(scan, existing[..n]) {
        RetainedRestates(scan, existing[..n], p);
        if p !in scan {
          var i :| 0 <= i < n && p == AsNew(existing[..n][i].row);
          assert p == AsNew(existing[i].row);
        }
      } else {
        assert p == AsNew(existing[n].row);
      }
    }
  }

  /**
   A partial scan loses nothing live: the rows removed are exactly those both expired and unscanned,
   and a live row of an unscanned path keeps everything but its update time.
   */
  lemma PartialScanLosesNothingLive(t: Table<PasteRow>, scan: seq<NewPaste>, existing: seq<Record>, listedAt: int,
                                    now: int)
    requires Schema(t) && ListsVisible(existing, t.rows, listedAt)
    requires Reconcile(t, Retained(scan, existing), now).1.Ok?
    ensures
      var after := Reconcile(t, Retained(scan, existing), now).0.rows;
      forall id :: id in t.rows ==>
        && (id !in after <==> t.rows[id].path !in ScanPaths(scan) && !Visible(t.rows, id, listedAt))
        && (t.rows[id].path !in ScanPaths(scan) && Visible(t.rows, id, listedAt) ==>
              after[id] == t.rows[id].(updatedAt := now))
  {
    var retained := Retained(scan, existing);
    var after := Reconcile(t, retained, now).0.rows;
    ReconcileIsExact(t, retained, now);
    RetainedPaths(scan, existing);
    forall id | id in t.rows
      ensures id !in after <==> t.rows[id].path !in ScanPaths(scan) && !Visible(t.rows, id, listedAt)
      ensures t.rows[id].path !in ScanPaths(scan) && Visible(t.rows, id, listedAt) ==>
        after[id] == t.rows[id].(updatedAt := now)
    {
      ListedIffVisible(t.rows, existing, listedAt, id);
      if t.rows[id].path !in ScanPaths(scan) && Visible(t.rows, id, listedAt) {
        RestatedRow(t.rows, scan, existing, listedAt, id, after[id]);
      }
    }
  }

  lemma ListedIffVisible(rows: PasteRows, existing: seq<Record>, listedAt: int, id: int)
    requires UniquePaths(rows) && ListsVisible(existing, rows, listedAt) && id in rows
    ensures rows[id].path in ListedPaths(existing) <==> Visible(rows, id, listedAt)
  {
    if Visible(rows, id, listedAt) {
      var k :| 0 <= k < |existing| && existing[k] == Record(id, rows[id]);
      assert existing[k].row.path == rows[id].path;
    }
    if rows[id].path in ListedPaths(existing) {
      var k :| 0 <= k < |existing| && existing[k].row.path == rows[id].path;
      assert existing[k].id == id;
    }
  }

  lemma RestatedRow(rows: PasteRows, scan: seq<NewPaste>, existing: seq<Record>, listedAt: int, id: int, row: PasteRow)
    requires UniquePaths(rows) && ListsVisible(existing, rows, listedAt) && id in rows &&
      rows[id].path !in ScanPaths(scan)
    requires SameIdentity(rows[id], row) && AsLastScanned(Retained(scan, existing), row)
    ensures row == rows[id].(updatedAt := row.updatedAt)
  {
    var retained := Retained(scan, existing);
    var k :| 0 <= k < |retained| && Describes(retained[k], row);
    RetainedRestates(scan, existing, retained[k]);
    assert forall j :: 0 <= j < |scan| ==> scan[j].path in ScanPaths(scan);
    assert retained[k] !in scan;
    var i :| 0 <= i < |existing| && retained[k] == AsNew(existing[i].row);
    assert existing[i].row == rows[existing[i].id] && existing[i].id == id;
  }

  // ----- discovered rows -----

  /** Entry `k` is the first of the scan with this path. */
  predicate FirstOfPath(scan: seq<NewPaste>, k: int, path: Path) {
    0 <= k < |scan| && scan[k].path == path && forall j :: 0 <= j < k ==> scan[j].path != path
  }

  predicate DiscoveredAs(scan: seq<NewPaste>, k: int, row: PasteRow) {
    FirstOfPath(scan, k, row.path) && row.owner == scan[k].owner && row.createdAt == scan[k].createdAt
  }

  ghost predicate Discovered(scan: seq<NewPaste>, row: PasteRow) {
    exists k :: DiscoveredAs(scan, k, row)
  }

  lemma StillDiscovered(scan: seq<NewPaste>, p: NewPaste, before: PasteRow, after: PasteRow)
    requires Discovered(scan, before) && SameIdentity(before, after)
    ensures Discovered(scan + [p], after)
  {
    var k :| DiscoveredAs(scan, k, before);
    assert DiscoveredAs(scan + [p], k, after);
  }

  lemma NowDiscovered(scan: seq<NewPaste>, p: NewPaste, row: PasteRow)
    requires p.path !in ScanPaths(scan) && row.path == p.path
    requires row.owner == p.owner && row.createdAt == p.createdAt
    ensures Discovered(scan + [p], row)
  {
    forall j | 0 <= j < |scan| ensures scan[j].path != p.path {
      assert scan[j].path in ScanPaths(scan);
    }
    assert DiscoveredAs(scan + [p], |scan|, row);
  }

  /** Rows that the scan adds have the owner and the creation time of the first entry of their path. */
  lemma {:induction false} UpsertAllDiscovers(t: Table<PasteRow>, scan: seq<NewPaste>, now: int)
    requires Schema(t)
    ensures forall id :: id in UpsertAll(t, scan, now).0.rows && id !in t.rows ==>
      Discovered(scan, UpsertAll(t, scan, now).0.rows[id])
  {
    if scan != [] {
      var n, p := |scan| - 1, scan[|scan|-1];
      assert scan[..n] + [p] == scan;
      UpsertAllDiscovers(t, scan[..n], now);
      UpsertAllRows(t, scan[..n], now);
      var before := UpsertAll(t, scan[..n], now).0;
      UpsertRows(before, p, now);
      var after := UpsertAll(t, scan, now).0;
      forall id | id in after.rows && id !in t.rows ensures Discovered(scan, after.rows[id]) {
        if id in before.rows {
          StillDiscovered(scan[..n], p, before.rows[id], after.rows[id]);
        } else {
          assert !PathTaken(before.rows, p.path);
          assert p.path !in Paths(before.rows);
          NowDiscovered(scan[..n], p, after.rows[id]);
        }
      }
    }
  }

  /** A file that had no row gets one with the owner and the creation time that the scan gives it. */
  lemma ReconcileDiscovers(t: Table<PasteRow>, scan: seq<NewPaste>, now: int)
    requires Schema(t) && Reconcile(t, scan, now).1.Ok?
    ensures forall id :: id in Reconcile(t, scan, now).0.rows && id !in t.rows ==>
      Discovered(scan, Reconcile(t, scan, now).0.rows[id])
  {
    DropKeepsSchema(t, Absent(t.rows, scan));
    UpsertAllDiscovers(t.(rows := t.rows - Absent(t.rows, scan)), scan, now);
  }
}
