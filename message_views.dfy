/**
 * `MessageViewSet`: messages are visible only to participants of their chat (its
 * creator alone does not qualify); posting requires the same; `context` lists the
 * visible messages with a given context index.
 */
module MessageViews {
  import opened Wrappers
  import opened Seqs
  import opened ChatModel
  import opened MessageModel
  import opened Http
  import Text
  import Store

  /** `get_queryset()`: `filter(chat_id=chat_pk, chat__participants=request.user)`, oldest first. */
  function GetQueryset(db: Store.Database, chatPk: ChatId, requester: UserId): (r: seq<Message>)
    reads db
    requires db.Valid()
    ensures forall m :: m in r <==> (m.id in db.messages && db.messages[m.id] == m && m.chat == chatPk
                                     && chatPk in db.chats && requester in db.chats[chatPk].participants)
    ensures NoDuplicates(r)
    ensures forall i, j :: 0 <= i < j < |r| ==> r[i].createdAt <= r[j].createdAt
  {
    var chats := db.chats;
    var all := db.MessageObjects();
    var p := (m: Message) => m.chat == chatPk && m.chat in chats && requester in chats[m.chat].participants;
    SelectNoDuplicates(all, p);
    SelectKeepsOrder(all, p, (m: Message) => m.createdAt, false);
    Select(all, p)
  }

  /** Creating a chat does not make one a participant: its creator alone sees none of its messages. */
  lemma CreatorAloneSeesNoMessages(db: Store.Database, chatPk: ChatId, requester: UserId)
    requires db.Valid() && chatPk in db.chats && requester !in db.chats[chatPk].participants
    ensures GetQueryset(db, chatPk, requester) == []
  {
    var r := GetQueryset(db, chatPk, requester);
    assert forall m :: m !in r;
  }

  /**
   * `perform_create`: the chat must exist with the requester among its participants,
   * else 404 and no message; the new message is in that chat, sent by the requester.
   */
  method PerformCreate(db: Store.Database, chatPk: ChatId, requester: UserId, content: string, contextIndex: Option<int>)
    returns (resp: Response<Message>)
    requires db.Valid() && requester in db.users
    modifies db
    ensures db.Valid()
    ensures resp.status == CREATED <==> chatPk in old(db.chats) && requester in old(db.chats)[chatPk].participants
    ensures resp.status != CREATED ==> resp == NotFound("Chat") && db.messages == old(db.messages)
    ensures resp.status == CREATED ==> (
              && resp.body.Data?
              && resp.body.value.chat == chatPk && resp.body.value.sender == requester
              && resp.body.value.content == content && resp.body.value.contextIndex == contextIndex
              && resp.body.value.id !in old(db.messages)
              && db.messages == old(db.messages)[resp.body.value.id := resp.body.value])
    ensures resp.status == CREATED ==> resp.body.value in GetQueryset(db, chatPk, requester)
    ensures db.users == old(db.users) && db.chats == old(db.chats) && db.files == old(db.files)
  {
    if chatPk !in db.chats || requester !in db.chats[chatPk].participants {
      return NotFound("Chat");
    }
    var m := db.CreateMessage(chatPk, content, requester, contextIndex);
    return Response(CREATED, Data(m), map[]);
  }

  /**
   * `perform_create` as the code stands: the serializer's required, write-only
   * `chat_id` reaches the model's constructor beside `chat=`, and the constructor
   * assigns the leftover `chat_id` after the related object, so the message is
   * stored in the chat the payload names. Only the chat in the URL is looked up; a
   * payload chat that does not exist breaks the foreign key, which is not caught (500).
   */
  method PerformCreateAsWritten(db: Store.Database, chatPk: ChatId, requester: UserId, payloadChat: ChatId,
                                content: string, contextIndex: Option<int>)
    returns (resp: Response<Message>)
    requires db.Valid() && requester in db.users
    modifies db
    ensures db.Valid()
    ensures resp.status == NOT_FOUND <==> !(chatPk in old(db.chats) && requester in old(db.chats)[chatPk].participants)
    ensures resp.status == NOT_FOUND ==> resp == NotFound("Chat")
    ensures resp.status == SERVER_ERROR <==> resp.status != NOT_FOUND && payloadChat !in old(db.chats)
    ensures resp.status == SERVER_ERROR ==> resp == Response(SERVER_ERROR, ErrorPage, map[])
    ensures resp.status == CREATED <==> resp.status != NOT_FOUND && resp.status != SERVER_ERROR
    ensures resp.status != CREATED ==> db.messages == old(db.messages)
    ensures resp.status == CREATED ==> (
              && resp.body.Data?
              && resp.body.value.chat == payloadChat && resp.body.value.sender == requester
              && resp.body.value.content == content && resp.body.value.contextIndex == contextIndex
              && resp.body.value.id !in old(db.messages)
              && db.messages == old(db.messages)[resp.body.value.id := resp.body.value])
    ensures resp.status == CREATED && payloadChat != chatPk ==> resp.body.value !in GetQueryset(db, chatPk, requester)
    ensures db.users == old(db.users) && db.chats == old(db.chats) && db.files == old(db.files)
  {
    if chatPk !in db.chats || requester !in db.chats[chatPk].participants {
      return NotFound("Chat");
    }
    if payloadChat !in db.chats {
      return Response(SERVER_ERROR, ErrorPage, map[]);
    }
    var m := db.CreateMessage(payloadChat, content, requester, contextIndex);
    return Response(CREATED, Data(m), map[]);
  }

  /**
   * A message posted as written through a chat the sender belongs to, but naming in
   * its payload a chat the sender does not belong to, lands in that other chat: it
   * is listed neither under the chat that was posted to nor under its own.
   */
  lemma PostedIntoForeignChat(db: Store.Database, chatPk: ChatId, requester: UserId, m: Message)
    requires db.Valid() && m.id in db.messages && db.messages[m.id] == m
    requires m.chat != chatPk && m.chat in db.chats && requester !in db.chats[m.chat].participants
    ensures m.chat in db.chats && m !in GetQueryset(db, chatPk, requester) && m !in GetQueryset(db, m.chat, requester)
  {
  }

  /** `if not context_index`: an absent or empty parameter. */
  predicate Missing(contextIndex: Option<string>)
  {
    contextIndex.None? || contextIndex.value == ""
  }

  /**
   * `context`: 400 when the parameter is missing or empty; a value that is not an
   * integer makes the lookup raise, and the framework answers with its own 500
   * error page; otherwise the visible messages whose context index is that
   * integer, a subsequence of the list result.
   */
  function Context(db: Store.Database, chatPk: ChatId, requester: UserId, contextIndex: Option<string>)
    : (r: Response<seq<Message>>)
    reads db
    requires db.Valid()
    ensures r.status == BAD_REQUEST <==> Missing(contextIndex)
    ensures r.status == BAD_REQUEST ==> r.body == ErrorText("context_index is required")
    ensures r.status == SERVER_ERROR <==> !Missing(contextIndex) && Text.ParseInt(contextIndex.value).None?
    ensures r.status == SERVER_ERROR ==> r == Response(SERVER_ERROR, ErrorPage, map[])
    ensures r.status == OK <==> !Missing(contextIndex) && Text.ParseInt(contextIndex.value).Some?
    ensures r.status == OK ==> (
              && r.body.Data?
              && (forall m :: m in r.body.value <==> (m in GetQueryset(db, chatPk, requester)
                                                      && m.contextIndex == Text.ParseInt(contextIndex.value)))
              && IsSubseq(r.body.value, GetQueryset(db, chatPk, requester)))
  {
    if Missing(contextIndex) then Response(BAD_REQUEST, ErrorText("context_index is required"), map[])
    else
      var n := Text.ParseInt(contextIndex.value);
      if n.None? then Response(SERVER_ERROR, ErrorPage, map[])
      else Response(OK, Data(Select(GetQueryset(db, chatPk, requester), (m: Message) => m.contextIndex == n)), map[])
  }

  /** An index the client wrote as digits finds its messages: the parameter round-trips. */
  lemma ContextOfWrittenIndex(db: Store.Database, chatPk: ChatId, requester: UserId, n: int)
    requires db.Valid()
    ensures Context(db, chatPk, requester, Some(Text.IntToString(n))).status == OK
    ensures forall m :: m in Context(db, chatPk, requester, Some(Text.IntToString(n))).body.value <==>
              m in GetQueryset(db, chatPk, requester) && m.contextIndex == Some(n)
  {
    Text.ParseIntRoundTrip(n);
  }
}
