/** The paste half of the store object, one method per transaction. */
module PasteStore {
  import opened Base
  import opened Pastes
  import opened Reconciliation

  /** The rows whose paths were looked at and are not in the scan. */
  ghost function Passed(rows: PasteRows, incoming: set<Path>, existing: set<Path>): set<int> {
    set id | id in rows && rows[id].path !in incoming && rows[id].path !in existing
  }

  lemma PassedAtEnds(rows: PasteRows, scan: seq<NewPaste>)
    ensures Passed(rows, ScanPaths(scan), Paths(rows)) == {}
    ensures Passed(rows, ScanPaths(scan), {}) == Absent(rows, scan)
  {
    var all, none := Passed(rows, ScanPaths(scan), Paths(rows)), Passed(rows, ScanPaths(scan), {});
    forall id ensures id !in all {
    }
    var absent := Absent(rows, scan);
    forall id ensures id in none <==> id in absent {
    }
    assert none == absent;
  }

  lemma PassedOneMore(rows: PasteRows, incoming: set<Path>, existing: set<Path>, path: Path)
    requires path in existing
    ensures
      var was := Passed(rows, incoming, existing);
      var ids := if path in incoming then {} else WithPath(rows - was, path);
      Passed(rows, incoming, existing - {path}) == was + ids && was !! ids && rows - was - ids == rows - (was + ids)
  {
    var was, passed := Passed(rows, incoming, existing), Passed(rows, incoming, existing - {path});
    var ids := if path in incoming then {} else WithPath(rows - was, path);
    forall id ensures id in passed <==> id in was + ids {
    }
    assert passed == was + ids;
  }

  lemma DeleteByPathIsOne(t: Table<PasteRow>, path: Path, id: int)
    requires UniquePaths(t.rows) && id in t.rows && t.rows[id].path == path
    ensures DeleteByPath(t, path).rows == t.rows - {id}
  {
    var left, deleted := t.rows - {id}, DeleteByPath(t, path).rows;
    forall k ensures k in deleted <==> k in left {
      assert k in t.rows && t.rows[k].path == path ==> k == id;
    }
    assert deleted == left;
  }

  class Store {
    var pastes: Table<PasteRow>

    constructor ()
      ensures pastes == Table(map[], 1) && Schema(pastes)
    {
      pastes := Table(map[], 1);
    }

    method InsertPaste(p: NewPaste, now: int) returns (result: Result<Record>)
      requires Schema(pastes)
      modifies this
      ensures Schema(pastes) && (pastes, result) == Pastes.InsertPaste(old(pastes), p, now)
    {
      InsertKeepsSchema(pastes, p, now);
      if !ValidNewPaste(p) {
        return Err(InvalidInput);
      }
      var key := ActiveLinkKey(p, now);
      var before := pastes;
      if key.Some? {
        pastes := pastes.(rows := ClearExpiredLink(pastes.rows, key.value, now));
        if LinkActive(pastes.rows, key.value, now) {
          pastes := before;  // rolled back
          return Err(PublicFilenameConflict(key.value));
        }
      }
      if PathTaken(pastes.rows, p.path) || LinkIndexed(pastes.rows, key) {
        pastes := before;  // rolled back; the link was found free above, so this is no conflict
        return Err(Database);
      }
      var row, id := RowOf(p, None, key), pastes.nextId;
      pastes := Table(pastes.rows[id := row], id + 1);
      result := Ok(Record(id, row));
    }

    method InsertPasteDeduplicated(p: NewPaste, now: int) returns (result: Result<PasteInsert>)
      requires Schema(pastes)
      modifies this
      ensures Schema(pastes) && (pastes, result) == InsertDeduplicated(old(pastes), p, now)
    {
      InsertKeepsSchema(pastes, p, now);
      if !Deduplicable(p) {
        return Err(InvalidInput);
      }
      var key := DedupKey(DedupCategory(p.kind).value, p.contentHash);
      var before := pastes;
      pastes := pastes.(rows := ClearExpiredLink(pastes.rows, p.filename, now));
      ghost var found := FindDedup(pastes.rows, p.owner.value, key);
      var hits := DedupIds(pastes.rows, p.owner.value, key);
      if hits != {} {
        var existing := PickOne(hits);
        assert found.Some? && SameDedup(pastes.rows[existing], pastes.rows[found.value]);
        return Ok(Duplicate(Record(existing, pastes.rows[existing])));
      }
      if LinkActive(pastes.rows, p.filename, now) {
        pastes := before;  // rolled back
        return Err(PublicFilenameConflict(p.filename));
      }
      if PathTaken(pastes.rows, p.path) || LinkIndexed(pastes.rows, Some(p.filename)) {
        pastes := before;  // rolled back
        return Err(Database);
      }
      var row, id := RowOf(p, Some(key), Some(p.filename)), pastes.nextId;
      pastes := Table(pastes.rows[id := row], id + 1);
      result := Ok(Inserted(Record(id, row)));
    }

    /** Deletes the row of the identifier and returns what it was. */
    method DeletePaste(id: int) returns (removed: Option<Record>)
      requires Schema(pastes)
      modifies this
      ensures Schema(pastes) && pastes == Pastes.DeletePaste(old(pastes), id)
      ensures removed == if id in old(pastes).rows then Some(Record(id, old(pastes).rows[id])) else None
    {
      removed := if id in pastes.rows then Some(Record(id, pastes.rows[id])) else None;
      pastes := pastes.(rows := pastes.rows - {id});
    }

    /** Deletes the row of the path and returns what it was. */
    method DeletePasteByStoragePath(path: Path) returns (removed: Option<Record>)
      requires Schema(pastes)
      modifies this
      ensures Schema(pastes) && pastes == DeleteByPath(old(pastes), path)
      ensures removed.None? <==> !PathTaken(old(pastes).rows, path)
      ensures removed.Some? ==>
        var r := removed.value;
        r.row.path == path && r.id in old(pastes).rows && r.row == old(pastes).rows[r.id]
        && pastes.rows == old(pastes).rows - {r.id}
    {
      var ids := WithPath(pastes.rows, path);
      if ids == {} {
        assert forall id :: id in pastes.rows && pastes.rows[id].path == path ==> id in ids;
        assert pastes.rows == DeleteByPath(pastes, path).rows;
        return None;
      }
      var id := PickOne(ids);
      DeleteByPathIsOne(pastes, path, id);
      removed := Some(Record(id, pastes.rows[id]));
      pastes := pastes.(rows := pastes.rows - {id});
    }

    /** Deletes the rows of the stored paths that the scan lacks. */
    method RemoveAbsent(scan: seq<NewPaste>) returns (removed: nat)
      modifies this
      ensures pastes == old(pastes).(rows := old(pastes).rows - Absent(old(pastes).rows, scan))
      ensures removed == |Absent(old(pastes).rows, scan)|
    {
      var incoming, existing := ScanPaths(scan), Paths(pastes.rows);
      removed := 0;
      ghost var rows := pastes.rows;
      PassedAtEnds(rows, scan);
      while existing != {}
        invariant pastes == old(pastes).(rows := rows - Passed(rows, incoming, existing))
        invariant removed == |Passed(rows, incoming, existing)|
      {
        var path := PickOne(existing);
        PassedOneMore(rows, incoming, existing, path);
        existing := existing - {path};
        if path !in incoming {
          var ids := WithPath(pastes.rows, path);
          removed := removed + |ids|;
          pastes := pastes.(rows := pastes.rows - ids);
        }
      }
    }

    /** Inserts or refreshes a row per scanned entry. */
    method UpsertScan(scan: seq<NewPaste>, now: int) returns (inserted: nat)
      modifies this
      ensures (pastes, inserted) == UpsertAll(old(pastes), scan, now)
    {
      inserted := 0;
      for i := 0 to |scan|
        invariant (pastes, inserted) == UpsertAll(old(pastes), scan[..i], now)
      {
        assert scan[..i+1][..i] == scan[..i];
        if PathTaken(pastes.rows, scan[i].path) {
          pastes := pastes.(rows := map id | id in pastes.rows ::
            if pastes.rows[id].path == scan[i].path then Refreshed(pastes.rows[id], scan[i], now) else pastes.rows[id]);
        } else {
          pastes := Table(pastes.rows[pastes.nextId := RowOf(scan[i], None, None).(updatedAt := now)],
                          pastes.nextId + 1);
          inserted := inserted + 1;
        }
      }
      assert scan[..|scan|] == scan;
    }

    method ReconcilePastes(scan: seq<NewPaste>, now: int) returns (result: Result<Tally>)
      requires Schema(pastes)
      modifies this
      ensures Schema(pastes) && (pastes, result) == Reconcile(old(pastes), scan, now)
    {
      ReconcileIsExact(pastes, scan, now);
      for i := 0 to |scan|
        invariant pastes == old(pastes) && forall k :: 0 <= k < i ==> ValidNewPaste(scan[k])
      {
        if !ValidNewPaste(scan[i]) {
          return Err(InvalidInput);
        }
      }
      var removed := RemoveAbsent(scan);
      var inserted := UpsertScan(scan, now);
      result := Ok(Tally(inserted, removed));
    }
  }
}
