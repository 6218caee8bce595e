/**
 * The `File` record: an uploaded attachment of a chat. The bytes live in blob
 * storage behind a handle; `file_name`, `file_type` and `file_size` are derived
 * from that handle, never taken from the client.
 */
module FileModel {
  import opened Wrappers
  import Text
  import opened Storage
  import opened ChatModel

  type FileId = int

  /**
   * The stored-file handle: its name, the content type and size reported for the
   * upload, and whether it has been committed to storage (its name is then the one
   * the storage chose).
   */
  datatype StoredFile = StoredFile(name: string, contentType: string, size: int, committed: bool)

  datatype File = File(
    id: FileId,
    chat: ChatId,
    file: StoredFile,
    fileName: string,
    fileType: string,
    fileSize: int,
    uploadedBy: UserId,
    uploadedAt: nat)

  /** `get_file_path`: uploads go to "chat_files/<chat id>/<filename>". */
  function GetFilePath(chatId: ChatId, filename: string): (r: string)
    ensures r == "chat_files/" + Text.IntToString(chatId) + "/" + filename
    ensures Text.Basename(r) == Text.Basename(filename)
    ensures '/' !in filename ==> Text.Basename(r) == filename
  {
    var r := "chat_files/" + Text.IntToString(chatId) + "/" + filename;
    Text.BasenameAfterSlash("chat_files/" + Text.IntToString(chatId), filename);
    if '/' !in filename then Text.BasenameOfPlain(filename); r else r
  }

  /** The three columns `File.save` recomputes. */
  datatype Derived = Derived(fileName: string, fileType: string, fileSize: int)

  /** What `File.save` assigns: the handle's base name, content type and size. */
  function DeriveFields(h: StoredFile): (d: Derived)
    ensures '/' !in d.fileName
    ensures d.fileType == h.contentType && d.fileSize == h.size
    ensures d.fileName == Text.Basename(h.name)
  {
    Derived(Text.Basename(h.name), h.contentType, h.size)
  }

  /** A value read off an object: a string or an integer. */
  datatype Value = Str(s: string) | Int(n: int)

  datatype AttributeError = AttributeError(attr: string)

  /**
   * The attributes of `self.file` inside `File.save`. Assigning an upload to a
   * `FileField` wraps it in a `FieldFile`, which answers `name` and `size` but has
   * no `content_type`: that attribute belongs to the uploaded file underneath.
   */
  function FieldFileAttribute(h: StoredFile, attr: string): (r: Option<Value>)
    ensures r.Some? <==> attr == "name" || attr == "size"
    ensures attr == "name" ==> r == Some(Str(h.name))
    ensures attr == "size" ==> r == Some(Int(h.size))
  {
    if attr == "name" then Some(Str(h.name))
    else if attr == "size" then Some(Int(h.size))
    else None
  }

  /**
   * The derivation of `File.save` as written: it reads `name`, `content_type` and
   * `size` of `self.file` in that order, and the first one missing raises.
   */
  function DeriveFieldsAsWritten(h: StoredFile): (r: Result<Derived, AttributeError>)
    ensures r.Failure? ==> r.error.attr in ["name", "content_type", "size"]
  {
    match (FieldFileAttribute(h, "name"), FieldFileAttribute(h, "content_type"), FieldFileAttribute(h, "size"))
    case (Some(Str(name)), Some(Str(contentType)), Some(Int(size))) =>
      Success(Derived(Text.Basename(name), contentType, size))
    case (Some(Str(_)), Some(Str(_)), _) => Failure(AttributeError("size"))
    case (Some(Str(_)), _, _) => Failure(AttributeError("content_type"))
    case _ => Failure(AttributeError("name"))
  }

  /** As written, every save raises on `content_type`, before anything is stored. */
  lemma SaveAsWrittenAlwaysRaises(h: StoredFile)
    ensures DeriveFieldsAsWritten(h) == Failure(AttributeError("content_type"))
  {
  }

  /**
   * Committing an uncommitted handle stores it under the name the storage makes of
   * `get_file_path`: the upload directory, then the valid form of the file's name.
   * The storage refuses a name with no valid form; a committed handle is kept.
   */
  function Commit(h: StoredFile, chat: ChatId): (r: Result<StoredFile, StorageError>)
    ensures h.committed ==> r == Success(h)
    ensures !h.committed ==> (r.Failure? <==> GetValidFilename(Text.Basename(h.name)).Failure?)
    ensures r.Success? ==> r.value.committed && r.value.contentType == h.contentType && r.value.size == h.size
    ensures !h.committed && r.Success? ==> Success(Text.Basename(r.value.name)) == GetValidFilename(DeriveFields(h).fileName)
    ensures !h.committed && r.Success? ==> IsStoredName(r.value.name)
  {
    if h.committed then Success(h)
    else
      var name := GenerateFilename(GetFilePath(chat, h.name));
      if name.Failure? then Failure(name.error) else Success(StoredFile(name.value, h.contentType, h.size, true))
  }

  /** An upload with a plain name is committed as "chat_files/<chat id>/<valid name>". */
  lemma CommitPlainName(h: StoredFile, chat: ChatId)
    requires !h.committed && '/' !in h.name && Commit(h, chat).Success?
    ensures Commit(h, chat).value.name == "chat_files/" + Text.IntToString(chat) + "/" + GetValidFilename(h.name).value
  {
    var dir := "chat_files/" + Text.IntToString(chat);
    Text.DirnameAfterSlash(dir, h.name);
    Text.BasenameOfPlain(h.name);
    var v := GetValidFilename(h.name).value;
    assert GenerateFilename(GetFilePath(chat, h.name)) == Success(dir + "/" + v);
  }

  /**
   * Saving twice. The first save derives the columns from the handle as uploaded and
   * then commits it; the second derives them from the committed handle. Type and size
   * stay, the name becomes the storage's valid form of the first one, and nothing is
   * committed again.
   */
  lemma SaveTwice(h: StoredFile, chat: ChatId)
    requires Commit(h, chat).Success?
    ensures Commit(Commit(h, chat).value, chat) == Commit(h, chat)
    ensures DeriveFields(Commit(h, chat).value).fileType == DeriveFields(h).fileType
    ensures DeriveFields(Commit(h, chat).value).fileSize == DeriveFields(h).fileSize
    ensures !h.committed ==> Success(DeriveFields(Commit(h, chat).value).fileName) == GetValidFilename(DeriveFields(h).fileName)
  {
  }

  /** A name that is already valid survives both saves unchanged. */
  lemma {:induction false} SaveTwiceKeepsValidName(h: StoredFile, chat: ChatId)
    requires !h.committed && GetValidFilename(Text.Basename(h.name)) == Success(Text.Basename(h.name))
    ensures Commit(h, chat).Success?
    ensures DeriveFields(Commit(h, chat).value) == DeriveFields(h)
  {
  }

  /**
   * A name with a space is recorded as uploaded by the first save and with '_' by
   * the second: "My Report.pdf" is committed as "chat_files/<chat id>/My_Report.pdf",
   * after which `file_name` reads "My_Report.pdf".
   */
  lemma SecondSaveRenames(a: string, b: string, contentType: string, size: int, chat: ChatId)
    requires IsPlainName(a) && IsPlainName(b) && a != [] && b != []
    ensures var h := StoredFile(a + [' '] + b, contentType, size, false);
      && DeriveFields(h).fileName == a + [' '] + b
      && Commit(h, chat).Success?
      && Commit(h, chat).value.name == "chat_files/" + Text.IntToString(chat) + "/" + (a + ['_'] + b)
      && DeriveFields(Commit(h, chat).value).fileName == a + ['_'] + b
  {
    var name := a + [' '] + b;
    var h := StoredFile(name, contentType, size, false);
    PlainHasNoSlash(a);
    PlainHasNoSlash(b);
    assert '/' !in name;
    Text.BasenameOfPlain(name);
    SpaceBecomesUnderscore(a, b);
    CommitPlainName(h, chat);
    var dir := "chat_files/" + Text.IntToString(chat);
    Text.BasenameAfterSlash(dir, a + ['_'] + b);
    Text.BasenameOfPlain(a + ['_'] + b);
  }

  /**
   * What the first `File.save` of an upload leaves in the name columns: the name
   * derived before the commit has the committed handle's final component as its
   * valid form, and the committed handle carries a name the storage wrote.
   */
  lemma CommitAgrees(h: StoredFile, chat: ChatId)
    requires !h.committed && Commit(h, chat).Success?
    ensures GetValidFilename(DeriveFields(h).fileName) == Success(Text.Basename(Commit(h, chat).value.name))
    ensures IsStoredName(Commit(h, chat).value.name)
  {
  }

  /** A stored row's type and size are its committed handle's, as `File.save` leaves them. */
  predicate HandleColumnsAgree(f: File)
  {
    f.file.committed && f.fileType == f.file.contentType && f.fileSize == f.file.size
  }

  /**
   * A row agrees with its handle, as `File.save` leaves it: type and size are the
   * handle's, and the handle's final component is the storage's valid form of the
   * recorded name.
   */
  predicate AgreesWithHandle(f: File)
  {
    HandleColumnsAgree(f) && GetValidFilename(f.fileName) == Success(Text.Basename(f.file.name))
  }

  /** `File.__str__`: the file name, or "File <id>" when it is blank; never empty. */
  function FileStr(f: File): (r: string)
    ensures r != []
    ensures f.fileName != [] ==> r == f.fileName
    ensures f.fileName == [] ==> r == "File " + Text.IntToString(f.id)
  {
    if f.fileName != [] then f.fileName else "File " + Text.IntToString(f.id)
  }

  /**
   * The files that survive deleting the chats `goneChats` and the users `goneUsers`:
   * both `chat` and `uploaded_by` cascade.
   */
  function Cascade(fs: map<FileId, File>, goneChats: set<ChatId>, goneUsers: set<UserId>): (r: map<FileId, File>)
    ensures forall k :: k in r ==> k in fs && r[k] == fs[k]
    ensures forall k :: k in r ==> r[k].chat !in goneChats && r[k].uploadedBy !in goneUsers
    ensures forall k :: k in fs && fs[k].chat !in goneChats && fs[k].uploadedBy !in goneUsers ==> k in r
  {
    map k | k in fs && fs[k].chat !in goneChats && fs[k].uploadedBy !in goneUsers :: fs[k]
  }
}
