/**
 The upload directory and the paste store as objects: storing, recording, rolling back, deleting and
 sweeping, step by step. Each method is proved against its specification on the pair of them.
 */
module Server {
  import opened Base
  import opened Expiry
  import opened Siblings
  import opened Pastes
  import opened PasteRuns
  import opened PasteStore
  import opened Uploads

  class UploadServer {
    var files: Files
    const store: Store

    constructor (store: Store)
      ensures files == map[] && this.store == store
    {
      files := map[];
      this.store := store;
    }

    ghost function View(): Site
      reads this, store
    {
      Site(files, store.pastes)
    }

    /** delete_password_file: removes the sidecar if there is one. */
    method DeletePasswordFile(path: Path)
      modifies this
      ensures files == old(files) - {SidecarOf(path)}
    {
      if SidecarOf(path) in files {
        files := files - {SidecarOf(path)};
      }
    }

    /** store_password_hash: exclusive creation of the sidecar. */
    method StorePasswordHash(path: Path) returns (created: bool)
      modifies this
      ensures created == (SidecarOf(path) !in old(files))
      ensures files == if created then old(files)[SidecarOf(path) := PasswordHash] else old(files)
    {
      created := SidecarOf(path) !in files;
      if created {
        files := files[SidecarOf(path) := PasswordHash];
      }
    }

    method StoreFile(u: Upload, listing: seq<string>, nanos: nat) returns (stored: bool)
      requires !IsUrl(u.kind)
      requires Listing(listing) && Names(listing) == DirectoryNames(files, DirectoryOf(u.kind))
      modifies this
      ensures (files, stored) == StoreEntry(old(files), u, nanos)
    {
      var path := Path(DirectoryOf(u.kind), u.filename);
      var occupied := GlobMatchFile(listing, u.filename, nanos);
      if occupied in listing {
        return false;
      }
      path := TargetPath(u);
      if u.kind.ProtectedFile? {
        var created := StorePasswordHash(path);
        if !created {
          return false;
        }
      }
      if path in files {
        DeletePasswordFile(path);
        return false;
      }
      files := files[path := Content(u.storedHash)];
      stored := true;
    }

    method StoreUrl(u: Upload, nanos: nat) returns (stored: bool)
      requires IsUrl(u.kind)
      modifies this
      ensures (files, stored) == StoreEntry(old(files), u, nanos)
    {
      var path := TargetPath(u);
      stored := path !in files;
      if stored {
        files := files[path := Content(u.storedHash)];
      }
    }

    method RemoveNewUpload(path: Path)
      modifies this
      ensures files == WithoutPair(old(files), path)
    {
      files := files - {path};
      DeletePasswordFile(path);
    }

    method RemovePasteFile(path: Path) returns (removed: bool)
      modifies this
      ensures removed == (path in old(files))
      ensures files == if removed then WithoutPair(old(files), path) else old(files)
    {
      removed := path in files;
      if removed {
        files := files - {path};
        DeletePasswordFile(path);
      }
    }

    /** At most three attempts, each after deleting the stale row that was in the way. */
    method PersistPasteMetadata(p: NewPaste, deduplicate: bool, now: int) returns (persisted: Persisted)
      requires Schema(store.pastes)
      modifies store
      ensures Schema(store.pastes) &&
        (store.pastes, persisted) == Persist(old(store.pastes), files, p, deduplicate, now)
      ensures !persisted.GaveUp?
    {
      PersistSettles(store.pastes, files, p, deduplicate, now);
      if !deduplicate {
        var inserted := store.InsertPaste(p, now);
        return if inserted.Ok? then Recorded else Refused(inserted.error);
      }
      for i := 0 to PERSIST_PASSES
        invariant Schema(store.pastes)
        invariant RetryInsert(old(store.pastes), files, p, now, PERSIST_PASSES)
               == RetryInsert(store.pastes, files, p, now, PERSIST_PASSES - i)
      {
        var result := store.InsertPasteDeduplicated(p, now);
        match result
        case Err(e) => return Refused(e);
        case Ok(Inserted(_)) => return Recorded;
        case Ok(Duplicate(record)) =>
          if record.row.path in files {
            return Existing(record);
          }
          var deleted := store.DeletePaste(record.id);
      }
      persisted := GaveUp;
    }

    /** The newest unexpired row of this owner and content. */
    method FindOwnerDuplicate(owner: int, hash: string, now: int) returns (found: Option<int>)
      ensures found == Uploads.FindOwnerDuplicate(store.pastes.rows, owner, hash, now)
    {
      var rows := store.pastes.rows;
      var ids := OwnerDuplicates(rows, owner, hash, now);
      ghost var expected := Uploads.FindOwnerDuplicate(rows, owner, hash, now);
      if ids == {} {
        return None;
      }
      LatestExists(rows, ids);
      var id :| id in ids && IsLatest(rows, ids, id);
      assert IsLatest(rows, ids, expected.value);
      found := Some(id);
    }

    /** The optimistic check: an existing file answers the upload, the row of a missing one is deleted. */
    method CheckDuplicate(u: Upload, hash: string, now: int) returns (known: Option<Record>)
      requires Schema(store.pastes)
      modifies store
      ensures Schema(store.pastes)
      ensures match Uploads.CheckDuplicate(old(View()), u, hash, now)
              case Known(record) => known == Some(record) && store.pastes == old(store.pastes)
              case Proceed(pastes) => known == None && store.pastes == pastes
    {
      known := None;
      var duplicate := FindOwnerDuplicate(u.owner, hash, now);
      if duplicate.Some? {
        var id: int := duplicate.value;
        var row := store.pastes.rows[id];
        if row.path in files && IsCompatibleDuplicate(u.kind, row.kind) {
          return Some(Record(id, row));
        }
        if row.path !in files {
          var deleted := store.DeletePaste(id);
        }
      }
    }

    /** The metadata of a stored file is recorded, or the file is taken back. */
    method RecordMetadata(u: Upload, now: int) returns (reply: UploadReply)
      requires Schema(store.pastes)
      modifies this, store
      ensures Schema(store.pastes) && (View(), reply) == RecordUpload(old(View()), u, now)
    {
      var expiresAt := ExpirySeconds(u.expiryMillis);
      if expiresAt.Err? {
        return Failed(expiresAt.error);
      }
      var deduplicate := Suppresses(u) && DedupCategory(u.kind).Some?;
      var persisted := PersistPasteMetadata(PasteOf(u, expiresAt.value), deduplicate, now);
      if persisted.Recorded? {
        return Accepted;
      }
      RemoveNewUpload(TargetPath(u));
      reply := if persisted.Existing? then Folded(persisted.record)
               else if persisted.GaveUp? then Failed(Database)
               else if persisted.error.PublicFilenameConflict? then Conflict
               else Failed(persisted.error);
    }

    /** One part of an upload request. */
    method UploadPart(u: Upload, listing: seq<string>, now: int, nanos: nat) returns (reply: UploadReply)
      requires Schema(store.pastes)
      requires Listing(listing) && Names(listing) == DirectoryNames(files, DirectoryOf(u.kind))
      modifies this, store
      ensures Schema(store.pastes) && (View(), reply) == UploadPaste(old(View()), u, now, nanos)
    {
      if Suppresses(u) && (u.kind.File? || u.kind.Url?) {
        var known := CheckDuplicate(u, u.rawHash, now);
        if known.Some? {
          return Folded(known.value);
        }
      }
      var stored;
      if IsUrl(u.kind) {
        stored := StoreUrl(u, nanos);
      } else {
        stored := StoreFile(u, listing, nanos);
      }
      if !stored {
        return Conflict;
      }
      if Suppresses(u) && u.kind.RemoteFile? {
        var known := CheckDuplicate(u, u.storedHash, now);
        if known.Some? {
          RemoveNewUpload(TargetPath(u));
          return Folded(known.value);
        }
      }
      reply := RecordMetadata(u, now);
    }

    /** The first of the filename's records whose file is there, if the requester may delete it. */
    method Delete(filename: string, requester: Option<int>, globalDelete: bool, now: int) returns (reply: DeleteReply)
      requires Schema(store.pastes)
      modifies this, store
      ensures Schema(store.pastes)
      ensures (View(), reply) == DeleteUpload(old(View()), filename, requester, globalDelete, now)
    {
      var rows := store.pastes.rows;
      var ids := set id | id in FindByFilename(rows, filename, now) && rows[id].path in files;
      assert ids == Deletable(View(), filename, now);
      ghost var expected := FirstRecord(rows, ids);
      if ids == {} {
        return NotFound;
      }
      FirstExists(rows, ids);
      var id :| id in ids && ComesFirst(rows, ids, id);
      assert ComesFirst(rows, ids, expected.value);
      if !globalDelete && rows[id].owner != requester {
        return Forbidden;
      }
      var removed := RemovePasteFile(rows[id].path);
      var deleted := store.DeletePaste(id);
      reply := Deleted;
    }

    /** The expiry loop: content, then sidecar, then row, for each listed file. */
    method CleanUp(expired: seq<Path>)
      requires Schema(store.pastes)
      modifies this, store
      ensures Schema(store.pastes) && View() == Sweep(old(View()), expired)
    {
      for i := 0 to |expired|
        invariant Schema(store.pastes) && View() == Sweep(old(View()), expired[..i])
      {
        assert expired[..i+1][..i] == expired[..i];
        var removed := RemovePasteFile(expired[i]);
        if removed {
          var deleted := store.DeletePasteByStoragePath(expired[i]);
        }
      }
      assert expired[..|expired|] == expired;
    }
  }
}
