/**
 * `FileViewSet`: files are visible only to participants of their chat; uploading
 * requires the same; `download` answers with the attachment headers for a visible
 * file and no content.
 */
module FileViews {
  import opened Wrappers
  import opened Seqs
  import opened ChatModel
  import opened FileModel
  import opened Storage
  import opened Http
  import Text
  import Store
  import FileObjects

  /** `get_queryset()`: `filter(chat_id=chat_pk, chat__participants=request.user)`, newest first. */
  function GetQueryset(db: Store.Database, chatPk: ChatId, requester: UserId): (r: seq<File>)
    reads db
    requires db.Valid()
    ensures forall f :: f in r <==> (f.id in db.files && db.files[f.id] == f && f.chat == chatPk
                                     && chatPk in db.chats && requester in db.chats[chatPk].participants)
    ensures NoDuplicates(r)
    ensures forall i, j :: 0 <= i < j < |r| ==> r[i].uploadedAt >= r[j].uploadedAt
  {
    var chats := db.chats;
    var all := db.FileObjects();
    var p := (f: File) => f.chat == chatPk && f.chat in chats && requester in chats[f.chat].participants;
    SelectNoDuplicates(all, p);
    SelectKeepsOrder(all, p, (f: File) => f.uploadedAt, true);
    Select(all, p)
  }

  /** A row stored in a chat the requester participates in is in the requester's queryset. */
  lemma StoredRowIsVisible(db: Store.Database, chatPk: ChatId, requester: UserId, f: File)
    requires db.Valid()
    requires f.id in db.files && db.files[f.id] == f && f.chat == chatPk
    requires chatPk in db.chats && requester in db.chats[chatPk].participants
    ensures f in GetQueryset(db, chatPk, requester)
  {
  }

  /**
   * `perform_create`: the chat must exist with the requester among its participants,
   * else 404 and no file. The upload is then saved in that chat, by the requester,
   * with name, type and size taken from the upload, and its handle is committed
   * under the storage's valid form of the name; a name with no valid form is refused
   * by the storage, which the framework answers with its 400 page.
   */
  method PerformCreate(db: Store.Database, chatPk: ChatId, requester: UserId,
                       name: string, contentType: string, size: int)
    returns (resp: Response<File>)
    requires db.Valid() && requester in db.users
    modifies db
    ensures db.Valid()
    ensures resp.status == NOT_FOUND <==> !(chatPk in old(db.chats) && requester in old(db.chats)[chatPk].participants)
    ensures resp.status == NOT_FOUND ==> resp == NotFound("Chat")
    ensures resp.status == BAD_REQUEST <==> resp.status != NOT_FOUND && GetValidFilename(Text.Basename(name)).Failure?
    ensures resp.status == BAD_REQUEST ==> resp == Response(BAD_REQUEST, ErrorPage, map[])
    ensures resp.status == CREATED <==> resp.status != NOT_FOUND && resp.status != BAD_REQUEST
    ensures resp.status != CREATED ==> db.files == old(db.files)
    ensures resp.status == CREATED ==> (
              && resp.body.Data?
              && resp.body.value.chat == chatPk && resp.body.value.uploadedBy == requester
              && resp.body.value.fileName == Text.Basename(name)
              && resp.body.value.fileType == contentType && resp.body.value.fileSize == size
              && Commit(StoredFile(name, contentType, size, false), chatPk) == Success(resp.body.value.file)
              && resp.body.value.id !in old(db.files)
              && db.files == old(db.files)[resp.body.value.id := resp.body.value])
    ensures resp.status == CREATED ==> resp.body.value in GetQueryset(db, chatPk, requester)
    ensures db.users == old(db.users) && db.chats == old(db.chats) && db.messages == old(db.messages)
  {
    if chatPk !in db.chats || requester !in db.chats[chatPk].participants {
      return NotFound("Chat");
    }
    var handle := StoredFile(name, contentType, size, false);
    var upload := new FileObjects.FileInstance(chatPk, handle, requester, "", "", 0);
    assert upload.file == handle && upload.chat == chatPk;
    var r := upload.Save(db);
    if r.Failure? {
      return Response(BAD_REQUEST, ErrorPage, map[]);
    }
    var f := upload.Row(r.value);
    StoredRowIsVisible(db, chatPk, requester, f);
    return Response(CREATED, Data(f), map[]);
  }

  /** The `Content-Disposition` value `download` sets: the name, quoted, as an attachment. */
  function ContentDisposition(fileName: string): (r: string)
    ensures |r| == |fileName| + 23
    ensures r[..22] == "attachment; filename=\"" && r[|r| - 1] == '"'
    ensures r[22..|r| - 1] == fileName
  {
    "attachment; filename=\"" + fileName + "\""
  }

  /** A header value the response accepts: it contains no line break. */
  predicate HeaderValueOk(v: string)
  {
    '\n' !in v && '\r' !in v
  }

  /** The quoting adds no line break, so the disposition is accepted exactly when the name is. */
  lemma DispositionOkIffNameOk(fileName: string)
    ensures HeaderValueOk(ContentDisposition(fileName)) <==> HeaderValueOk(fileName)
  {
    var v := ContentDisposition(fileName);
    var prefix := "attachment; filename=\"";
    assert v == v[..22] + v[22..|v| - 1] + [v[|v| - 1]];
    assert v == prefix + fileName + "\"";
    assert forall c :: c in v <==> c in prefix || c in fileName || c == '"';
  }

  /** Rendering the empty download response drops the `Content-Type` it set and keeps the rest. */
  lemma AttachmentRendered(disposition: string, fileType: string)
    ensures Rendered<()>(Response(OK, NoBody, map[
              "Content-Disposition" := disposition,
              "Content-Type" := fileType,
              "X-Accel-Buffering" := "no"])).headers
            == map["Content-Disposition" := disposition, "X-Accel-Buffering" := "no"]
  {
    var h: map<string, string> := map[
      "Content-Disposition" := disposition,
      "Content-Type" := fileType,
      "X-Accel-Buffering" := "no"];
    var out := Rendered<()>(Response(OK, NoBody, h)).headers;
    var expected := map["Content-Disposition" := disposition, "X-Accel-Buffering" := "no"];
    assert forall k :: k in out <==> k in expected;
  }

  /**
   * `download`: only files in the requester's queryset resolve (404 otherwise); the
   * response sets the attachment name, the content type and disables proxy
   * buffering, and carries no content; a header value with a line break is refused
   * and the refusal answered with 500. Since the body is empty, rendering removes the
   * `Content-Type` the view set: the client receives the other two headers only.
   */
  method Download(db: Store.Database, chatPk: ChatId, requester: UserId, pk: FileId) returns (resp: Response<()>)
    requires db.Valid()
    ensures resp.status == NOT_FOUND <==>
              !(pk in db.files && db.files[pk].chat == chatPk && chatPk in db.chats && requester in db.chats[chatPk].participants)
    ensures resp.status == NOT_FOUND ==> resp == NotFound("File")
    ensures resp.status == SERVER_ERROR <==> (resp.status != NOT_FOUND
              && !(HeaderValueOk(db.files[pk].fileName) && HeaderValueOk(db.files[pk].fileType)))
    ensures resp.status == OK <==> resp.status != NOT_FOUND && resp.status != SERVER_ERROR
    ensures resp.status == OK ==> resp.body == NoBody && resp.headers == map[
              "Content-Disposition" := ContentDisposition(db.files[pk].fileName),
              "Content-Type" := db.files[pk].fileType,
              "X-Accel-Buffering" := "no"]
    ensures resp.status == OK ==> Rendered(resp).headers == map[
              "Content-Disposition" := ContentDisposition(db.files[pk].fileName),
              "X-Accel-Buffering" := "no"]
  {
    var visible := GetQueryset(db, chatPk, requester);
    var hits := Select(visible, (f: File) => f.id == pk);
    assert pk in db.files && db.files[pk].chat == chatPk && chatPk in db.chats && requester in db.chats[chatPk].participants
           ==> db.files[pk] in hits;
    if hits == [] {
      return NotFound("File");
    }
    assert hits[0] in hits;
    var fileObj := hits[0];
    var headers: map<string, string> := map[];
    var disposition := ContentDisposition(fileObj.fileName);
    DispositionOkIffNameOk(fileObj.fileName);
    if !HeaderValueOk(disposition) {
      return Response(SERVER_ERROR, ErrorText("Header values can't contain newlines"), map[]);
    }
    headers := headers["Content-Disposition" := disposition];
    if !HeaderValueOk(fileObj.fileType) {
      return Response(SERVER_ERROR, ErrorText("Header values can't contain newlines"), map[]);
    }
    headers := headers["Content-Type" := fileObj.fileType];
    headers := headers["X-Accel-Buffering" := "no"];
    resp := Response(OK, NoBody, headers);
    AttachmentRendered(disposition, fileObj.fileType);
  }
}
