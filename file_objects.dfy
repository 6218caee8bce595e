/**
 * `File.save` on an in-memory instance: it recomputes `file_name`, `file_type` and
 * `file_size` from the stored handle, commits the handle under the name the storage
 * makes of its upload path, and writes the row (insert for a new instance, update or
 * insert for one with a key).
 */
module FileObjects {
  import opened Wrappers
  import opened ChatModel
  import opened FileModel
  import opened Storage
  import Text
  import Store

  /** Why `save` fails: the storage refused the name, or a foreign key did not resolve. */
  datatype SaveError = SuspiciousName | Integrity

  /** The store's invariant, stated as one fact so that a frame argument can carry it whole. */
  ghost predicate StoreIntact(db: Store.Database)
    reads db
  {
    db.Valid()
  }

  class FileInstance {
    var id: Option<FileId>
    var chat: ChatId
    var file: StoredFile
    var fileName: string
    var fileType: string
    var fileSize: int
    var uploadedBy: UserId
    var uploadedAt: nat

    /** The row this instance writes under key `k`. */
    function Row(k: FileId): (f: File)
      reads this
      ensures f.id == k && f.chat == chat && f.file == file && f.uploadedBy == uploadedBy
      ensures Derived(f.fileName, f.fileType, f.fileSize) == Derived(fileName, fileType, fileSize)
      ensures f.uploadedAt == uploadedAt
    {
      File(k, chat, file, fileName, fileType, fileSize, uploadedBy, uploadedAt)
    }

    /**
     * The instance is new, or was read from or saved to `db`: its key is a valid
     * primary key and its upload time was issued by the store's clock.
     */
    ghost predicate FromStore(db: Store.Database)
      reads this, db
    {
      id.Some? ==> id.value > 0 && uploadedAt <= db.clock
    }

    /**
     * `File(chat=..., file=..., uploaded_by=..., ...)`: a new, unsaved instance; the
     * caller's values for the three derived columns are kept until `save`.
     */
    constructor (chat: ChatId, file: StoredFile, uploadedBy: UserId,
                 fileName: string, fileType: string, fileSize: int)
      ensures id == None && this.chat == chat && this.file == file && this.uploadedBy == uploadedBy
      ensures this.fileName == fileName && this.fileType == fileType && this.fileSize == fileSize
      ensures uploadedAt == 0
    {
      id := None;
      this.chat, this.file, this.uploadedBy := chat, file, uploadedBy;
      this.fileName, this.fileType, this.fileSize := fileName, fileType, fileSize;
      uploadedAt := 0;
    }

    /** The three assignments `save` makes before writing, taken from the handle as it stands. */
    method Refresh()
      modifies this
      ensures Derived(fileName, fileType, fileSize) == DeriveFields(old(file))
      ensures file == old(file)
      ensures id == old(id) && chat == old(chat) && uploadedBy == old(uploadedBy) && uploadedAt == old(uploadedAt)
    {
      var d := DeriveFields(file);
      fileName, fileType, fileSize := d.fileName, d.fileType, d.fileSize;
    }

    /**
     * `FileField.pre_save`: the storage names an uncommitted handle, or refuses its
     * name; a refused handle stays as it was, and no other field changes.
     */
    method CommitFile() returns (ok: bool)
      modifies this
      ensures ok <==> Commit(old(file), chat).Success?
      ensures ok ==> file == Commit(old(file), chat).value
      ensures !ok ==> file == old(file)
      ensures fileName == old(fileName) && fileType == old(fileType) && fileSize == old(fileSize)
      ensures id == old(id) && chat == old(chat) && uploadedBy == old(uploadedBy) && uploadedAt == old(uploadedAt)
    {
      var committed := Commit(file, chat);
      ok := committed.Success?;
      if ok {
        file := committed.value;
      }
    }

    /**
     * The part of `save` before the write: the derived columns are taken from the
     * handle as it stands, then the handle is committed; a first commit leaves the
     * derived name with the committed name's final component as its valid form.
     */
    method PreSave() returns (ok: bool)
      modifies this
      ensures Derived(fileName, fileType, fileSize) == DeriveFields(old(file))
      ensures ok <==> Commit(old(file), old(chat)).Success?
      ensures ok ==> file == Commit(old(file), old(chat)).value && HandleColumnsAgree(Row(0))
      ensures ok && !old(file).committed ==> GetValidFilename(fileName) == Success(Text.Basename(file.name))
      ensures !ok ==> file == old(file)
      ensures id == old(id) && chat == old(chat) && uploadedBy == old(uploadedBy) && uploadedAt == old(uploadedAt)
    {
      var upload := file;
      Refresh();
      ok := CommitFile();
      if ok && !upload.committed {
        CommitAgrees(upload, chat);
      }
    }

    /**
     * `Model.save_base` for the file row: the foreign keys must resolve, or the write
     * fails with an integrity error and no row changes; a new instance gets a fresh
     * key and upload time, one with a key keeps them.
     */
    method SaveBase(db: Store.Database) returns (r: Result<FileId, SaveError>)
      requires db.Valid() && FromStore(db) && HandleColumnsAgree(Row(0))
      modifies this, db
      ensures db.Valid() && FromStore(db)
      ensures file == old(file) && chat == old(chat) && uploadedBy == old(uploadedBy)
      ensures fileName == old(fileName) && fileType == old(fileType) && fileSize == old(fileSize)
      ensures r.Success? <==> old(chat) in old(db.chats) && old(uploadedBy) in old(db.users)
      ensures r.Failure? ==> r == Failure(Integrity)
      ensures r.Success? ==> id == Some(r.value) && db.files == old(db.files)[r.value := Row(r.value)]
      ensures r.Success? && old(id).Some? ==> r.value == old(id).value && uploadedAt == old(uploadedAt)
      ensures r.Success? && old(id).None? ==> r.value !in old(db.files) && uploadedAt == db.clock
      ensures r.Success? && old(id).None? ==> forall k :: k in old(db.files) ==> old(db.files)[k].uploadedAt < uploadedAt
      ensures r.Failure? ==> db.files == old(db.files) && id == old(id) && uploadedAt == old(uploadedAt)
      ensures db.users == old(db.users) && db.chats == old(db.chats) && db.messages == old(db.messages)
    {
      if chat !in db.chats || uploadedBy !in db.users {
        return Failure(Integrity);
      }
      var k: FileId;
      if id.None? {
        k := db.NewFileId();
        uploadedAt := db.Tick();
      } else {
        k := id.value;
      }
      id := Some(k);
      db.PutFile(Row(k));
      r := Success(k);
    }

    /**
     * `save()`: whatever the prior values, the derived columns come from the handle
     * as it was before the save; then the handle is committed under the storage's
     * name for it (refused when the name has no valid form) and the row is written.
     * The foreign keys must resolve, or the write fails with an integrity error and
     * no row changes. A second save derives the name from the committed handle, so it
     * records the storage's valid form of the first name (`FileModel.SaveTwice`).
     */
    method Save(db: Store.Database) returns (r: Result<FileId, SaveError>)
      requires db.Valid() && FromStore(db)
      modifies this, db
      ensures db.Valid() && FromStore(db)
      ensures Derived(fileName, fileType, fileSize) == DeriveFields(old(file))
      ensures '/' !in fileName && fileType == old(file).contentType && fileSize == old(file).size
      ensures chat == old(chat) && uploadedBy == old(uploadedBy)
      ensures r == Failure(SuspiciousName) <==> Commit(old(file), old(chat)).Failure?
      ensures Commit(old(file), old(chat)).Success? ==> file == Commit(old(file), old(chat)).value
      ensures Commit(old(file), old(chat)).Failure? ==> file == old(file)
      ensures r == Failure(Integrity) <==>
        Commit(old(file), old(chat)).Success? && !(old(chat) in old(db.chats) && old(uploadedBy) in old(db.users))
      ensures r.Success? <==>
        Commit(old(file), old(chat)).Success? && old(chat) in old(db.chats) && old(uploadedBy) in old(db.users)
      ensures r.Success? ==> id == Some(r.value) && db.files == old(db.files)[r.value := Row(r.value)]
      ensures r.Success? && !old(file).committed ==> AgreesWithHandle(Row(r.value))
      ensures r.Success? && old(id).Some? ==> r.value == old(id).value && uploadedAt == old(uploadedAt)
      ensures r.Success? && old(id).None? ==> r.value !in old(db.files) && uploadedAt == db.clock
      ensures r.Success? && old(id).None? ==> forall k :: k in old(db.files) ==> old(db.files)[k].uploadedAt < uploadedAt
      ensures r.Failure? ==> db.files == old(db.files) && id == old(id) && uploadedAt == old(uploadedAt)
      ensures db.users == old(db.users) && db.chats == old(db.chats) && db.messages == old(db.messages)
    {
      var ok := PreSave();
      assert StoreIntact(db);
      if !ok {
        return Failure(SuspiciousName);
      }
      r := SaveBase(db);
    }
  }
}
