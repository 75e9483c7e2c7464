/** The paste table: its two inserts, and the reservations that keep public links unambiguous. */
module Pastes {
  import opened Base
  import opened Text

  datatype PasteType = File | RemoteFile | Oneshot | Url | OneshotUrl | ProtectedFile

  datatype Directory = RootDir | OneshotDir | UrlDir | OneshotUrlDir | ProtectedDir

  function DirectoryOf(kind: PasteType): Directory {
    match kind
    case File => RootDir
    case RemoteFile => RootDir
    case Oneshot => OneshotDir
    case Url => UrlDir
    case OneshotUrl => OneshotUrlDir
    case ProtectedFile => ProtectedDir
  }

  datatype Path = Path(directory: Directory, name: string)

  datatype NewPaste = NewPaste(
    owner: Option<int>,
    filename: string,
    path: Path,
    kind: PasteType,
    createdAt: int,
    size: nat,
    expiresAt: Option<int>,
    contentHash: string)

  datatype PasteRow = PasteRow(
    owner: Option<int>,
    filename: string,
    path: Path,
    kind: PasteType,
    createdAt: int,
    updatedAt: int,
    size: nat,
    expiresAt: Option<int>,
    contentHash: string,
    dedupKey: Option<string>,
    linkKey: Option<string>)

  type PasteRows = map<int, PasteRow>

  datatype Record = Record(id: int, row: PasteRow)

  datatype PasteInsert = Inserted(record: Record) | Duplicate(record: Record)

  predicate ValidNewPaste(p: NewPaste) {
    p.filename != "" && p.path.name != "" && !Blank(p.contentHash) && p.size <= I64_MAX
  }

  predicate Unexpired(expiresAt: Option<int>, now: int) {
    expiresAt.None? || expiresAt.value > now
  }

  predicate Visible(rows: PasteRows, id: int, now: int) {
    id in rows && Unexpired(rows[id].expiresAt, now)
  }

  // ----- link reservations -----

  /** The link key of a new paste: owned and unexpired pastes reserve their public filename. */
  function ActiveLinkKey(p: NewPaste, now: int): Option<string> {
    if p.owner.Some? && Unexpired(p.expiresAt, now) then Some(p.filename) else None
  }

  /** Releases a key that an expired row still holds. */
  function ClearExpiredLink(rows: PasteRows, key: string, now: int): PasteRows {
    map id | id in rows ::
      if rows[id].linkKey == Some(key) && !Unexpired(rows[id].expiresAt, now) then rows[id].(linkKey := None)
      else rows[id]
  }

  predicate HoldsLink(row: PasteRow, key: string, now: int) {
    (row.linkKey == Some(key) || (row.linkKey.None? && row.filename == key)) && Unexpired(row.expiresAt, now)
  }

  predicate LinkActive(rows: PasteRows, key: string, now: int) {
    exists id :: id in rows && HoldsLink(rows[id], key, now)
  }

  /** The unique index on link_key would reject this key. */
  predicate LinkIndexed(rows: PasteRows, key: Option<string>) {
    key.Some? && exists id :: id in rows && rows[id].linkKey == key
  }

  predicate PathTaken(rows: PasteRows, path: Path) {
    exists id :: id in rows && rows[id].path == path
  }

  function RowOf(p: NewPaste, dedupKey: Option<string>, linkKey: Option<string>): PasteRow {
    PasteRow(p.owner, p.filename, p.path, p.kind, p.createdAt, p.createdAt, p.size, p.expiresAt, p.contentHash,
             dedupKey, linkKey)
  }

  /** The plain insert; every error leaves the table as it was. */
  function InsertPaste(t: Table<PasteRow>, p: NewPaste, now: int): (Table<PasteRow>, Result<Record>) {
    var key := ActiveLinkKey(p, now);
    if !ValidNewPaste(p) then (t, Err(InvalidInput))
    else
      var rows := if key.Some? then ClearExpiredLink(t.rows, key.value, now) else t.rows;
      if key.Some? && LinkActive(rows, key.value, now) then (t, Err(PublicFilenameConflict(key.value)))
      else if PathTaken(rows, p.path) || LinkIndexed(rows, key) then (t, Err(Database))
      else
        var row := RowOf(p, None, key);
        (Table(rows[t.nextId := row], t.nextId + 1), Ok(Record(t.nextId, row)))
  }

  // ----- deduplication -----

  function DedupCategory(kind: PasteType): Option<string> {
    match kind
    case File => Some("file")
    case RemoteFile => Some("file")
    case Url => Some("url")
    case Oneshot => None
    case OneshotUrl => None
    case ProtectedFile => None
  }

  function DedupKey(category: string, hash: string): string {
    category + ":" + hash
  }

  function DedupIds(rows: PasteRows, owner: int, key: string): set<int> {
    set id | id in rows && rows[id].owner == Some(owner) && rows[id].dedupKey == Some(key)
  }

  ghost function FindDedup(rows: PasteRows, owner: int, key: string): (r: Option<int>)
    ensures r.Some? ==> r.value in rows && rows[r.value].owner == Some(owner) && rows[r.value].dedupKey == Some(key)
    ensures r.None? ==> forall id :: id in rows ==> !(rows[id].owner == Some(owner) && rows[id].dedupKey == Some(key))
  {
    var hits := DedupIds(rows, owner, key);
    if hits == {} then
      assert forall id :: id in rows && rows[id].owner == Some(owner) && rows[id].dedupKey == Some(key) ==> id in hits;
      None
    else
      assert AnyOf(hits) in hits;
      Some(AnyOf(hits))
  }

  predicate Deduplicable(p: NewPaste) {
    ValidNewPaste(p) && p.owner.Some? && p.expiresAt.None? && DedupCategory(p.kind).Some?
  }

  /** The deduplicating insert: the owner's compatible paste of the same content wins over a new row. */
  ghost function InsertDeduplicated(t: Table<PasteRow>, p: NewPaste, now: int): (Table<PasteRow>, Result<PasteInsert>) {
    if !Deduplicable(p) then (t, Err(InvalidInput))
    else
      var key := DedupKey(DedupCategory(p.kind).value, p.contentHash);
      var rows := ClearExpiredLink(t.rows, p.filename, now);
      match FindDedup(rows, p.owner.value, key)
      case Some(id) => (t.(rows := rows), Ok(Duplicate(Record(id, rows[id]))))
      case None =>
        if LinkActive(rows, p.filename, now) then (t, Err(PublicFilenameConflict(p.filename)))
        else if PathTaken(rows, p.path) || LinkIndexed(rows, Some(p.filename)) then (t, Err(Database))
        else
          var row := RowOf(p, Some(key), Some(p.filename));
          (Table(rows[t.nextId := row], t.nextId + 1), Ok(Inserted(Record(t.nextId, row))))
  }

  // ----- queries and deletions -----

  function FindByFilename(rows: PasteRows, filename: string, now: int): set<int> {
    set id | id in rows && rows[id].filename == filename && Unexpired(rows[id].expiresAt, now)
  }

  function DeletePaste(t: Table<PasteRow>, id: int): Table<PasteRow> {
    t.(rows := t.rows - {id})
  }

  function DeleteByPath(t: Table<PasteRow>, path: Path): Table<PasteRow> {
    t.(rows := map id | id in t.rows && t.rows[id].path != path :: t.rows[id])
  }

  // ----- what the schema and the inserts maintain -----

  predicate UniquePaths(rows: PasteRows) {
    forall a, b :: a in rows && b in rows && rows[a].path == rows[b].path ==> a == b
  }

  predicate SameDedup(a: PasteRow, b: PasteRow) {
    a.owner.Some? && a.dedupKey.Some? && a.owner == b.owner && a.dedupKey == b.dedupKey
  }

  predicate UniqueDedup(rows: PasteRows) {
    forall a, b :: a in rows && b in rows && SameDedup(rows[a], rows[b]) ==> a == b
  }

  predicate UniqueLinks(rows: PasteRows) {
    forall a, b :: a in rows && b in rows && rows[a].linkKey.Some? && rows[a].linkKey == rows[b].linkKey ==> a == b
  }

  predicate Schema(t: Table<PasteRow>) {
    (forall id :: id in t.rows ==> id < t.nextId) && UniquePaths(t.rows) && UniqueDedup(t.rows) && UniqueLinks(t.rows)
  }

  lemma ClearKeepsSchema(t: Table<PasteRow>, key: string, now: int)
    requires Schema(t)
    ensures Schema(t.(rows := ClearExpiredLink(t.rows, key, now)))
  {
  }

  lemma AddKeepsSchema(t: Table<PasteRow>, row: PasteRow)
    requires Schema(t) && !PathTaken(t.rows, row.path) && !LinkIndexed(t.rows, row.linkKey)
    requires row.owner.Some? && row.dedupKey.Some? ==> FindDedup(t.rows, row.owner.value, row.dedupKey.value).None?
    ensures Schema(Table(t.rows[t.nextId := row], t.nextId + 1))
  {
  }

  lemma InsertKeepsSchema(t: Table<PasteRow>, p: NewPaste, now: int)
    requires Schema(t)
    ensures Schema(InsertPaste(t, p, now).0) && Schema(InsertDeduplicated(t, p, now).0)
  {
    ClearKeepsSchema(t, p.filename, now);
    var cleared := t.(rows := ClearExpiredLink(t.rows, p.filename, now));
    if InsertPaste(t, p, now).1.Ok? {
      var key := ActiveLinkKey(p, now);
      AddKeepsSchema(if key.Some? then cleared else t, RowOf(p, None, key));
    }
    var result := InsertDeduplicated(t, p, now).1;
    if result.Ok? && result.value.Inserted? {
      AddKeepsSchema(cleared, result.value.record.row);
    }
  }
}
