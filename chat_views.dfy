/**
 * `ChatViewSet`: the requester sees the chats they created or take part in; a
 * created chat belongs to the requester; the participant actions check, in this
 * order, that a user id was sent, that it names a user, and that the chat exists.
 */
module ChatViews {
  import opened Wrappers
  import opened Seqs
  import opened ChatModel
  import opened Http
  import ChatQueries
  import Store
  import Repositories
  import ChatSerializers

  /** `get_queryset()`: the chats the requester created or takes part in, each once, most recently updated first. */
  function GetQueryset(db: Store.Database, requester: UserId): (r: seq<Chat>)
    reads db
    requires db.Valid()
    ensures forall c :: c in r <==> c.id in db.chats && db.chats[c.id] == c && (c.createdBy == requester || requester in c.participants)
    ensures NoDuplicates(r)
    ensures forall i, j :: 0 <= i < j < |r| ==> r[i].updatedAt >= r[j].updatedAt
  {
    var all := db.ChatObjects();
    var p := (c: Chat) => c.createdBy == requester || requester in c.participants;
    SelectNoDuplicates(all, p);
    SelectKeepsOrder(all, p, (c: Chat) => c.updatedAt, true);
    Select(all, p)
  }

  /**
   * The endpoint's visibility rule and the repository's `get_user_chats` are the same
   * query, and it lists exactly the chats of `created_by_user` together with those of
   * `with_participant`.
   */
  lemma QuerysetIsUserChats(repo: Repositories.ChatRepository, requester: UserId)
    requires repo.db.Valid()
    ensures GetQueryset(repo.db, requester) == repo.GetUserChats(requester)
    ensures var all := repo.db.ChatObjects();
            forall c :: c in GetQueryset(repo.db, requester) <==>
              c in ChatQueries.CreatedByUser(all, requester) || c in ChatQueries.WithParticipant(all, requester)
  {
  }

  /**
   * `perform_create` as written: `serializer.save(created_by=request.user)` puts
   * `created_by` into the validated data, which `create` then unpacks next to its
   * own `created_by=` argument, so the call never goes through.
   */
  function PerformCreateAsWritten(data: ChatSerializers.ChatData): (r: Result<set<string>, ChatSerializers.CallError>)
    ensures r.Failure? && r.error == ChatSerializers.MultipleValues("created_by")
  {
    ChatSerializers.CreateCallKeywords(ChatSerializers.Keys(data) + {"created_by"})
  }

  /** Every create request fails as written, while the serializer called without the extra argument succeeds. */
  lemma PerformCreateAsWrittenAlwaysFails(data: ChatSerializers.ChatData)
    ensures PerformCreateAsWritten(data) == Failure(ChatSerializers.MultipleValues("created_by"))
    ensures ChatSerializers.CreateCallKeywords(ChatSerializers.Keys(data)).Success?
  {
    ChatSerializers.CreateCallOnValidatedData(data);
  }

  /**
   * `perform_create`, as intended: `serializer.save()`; the serializer already makes
   * the requester the creator, so the new chat is the requester's and visible to them.
   */
  method PerformCreate(db: Store.Database, data: ChatSerializers.ChatData, requester: UserId)
    returns (c: Chat, r: Result<(), Store.DbError>)
    requires db.Valid() && requester in db.users
    modifies db
    ensures db.Valid()
    ensures c.createdBy == requester
    ensures c.id !in old(db.chats) && db.chats == old(db.chats)[c.id := c]
    ensures c in GetQueryset(db, requester)
    ensures db.users == old(db.users) && db.messages == old(db.messages) && db.files == old(db.files)
  {
    c, r := ChatSerializers.Create(db, data, requester);
  }

  /** `if not user_id`: no id, a null id and the id 0 all count as missing. */
  predicate Falsy(userId: Option<int>)
  {
    userId.None? || userId.value == 0
  }

  /**
   * The answer of `add_participant`/`remove_participant` (`done` is the success
   * text): 400 for a missing id, then 404 for an unknown user, then 404 for an
   * unknown chat, else 200.
   */
  function ParticipantResponse(userId: Option<int>, users: set<UserId>, chatIds: set<ChatId>, pk: ChatId, done: string)
    : (r: Response<()>)
    ensures r.status == BAD_REQUEST <==> Falsy(userId)
    ensures r.status == NOT_FOUND <==> !Falsy(userId) && (userId.value !in users || pk !in chatIds)
    ensures r.status == OK <==> !Falsy(userId) && userId.value in users && pk in chatIds
    ensures r.status == BAD_REQUEST ==> r.body == ErrorText("user_id is required")
    ensures r.status == NOT_FOUND ==> (r.body.Detail? <==> userId.value !in users)
    ensures r.status == NOT_FOUND && userId.value in users ==> r.body == ErrorText("Chat not found")
    ensures r.status == OK ==> r.body == StatusText(done)
  {
    if Falsy(userId) then Response(BAD_REQUEST, ErrorText("user_id is required"), map[])
    else if userId.value !in users then NotFound("User")
    else if pk !in chatIds then Response(NOT_FOUND, ErrorText("Chat not found"), map[])
    else Response(OK, StatusText(done), map[])
  }

  /** `add_participant`: on 200 the user is a participant of chat `pk`; otherwise nothing changes. */
  method AddParticipant(repo: Repositories.ChatRepository, pk: ChatId, userId: Option<int>) returns (resp: Response<()>)
    requires repo.db.Valid()
    modifies repo.db
    ensures repo.db.Valid()
    ensures resp == ParticipantResponse(userId, old(repo.db.users), old(repo.db.chats).Keys, pk, "participant added")
    ensures resp.status != OK ==> repo.db.chats == old(repo.db.chats)
    ensures resp.status == OK ==> repo.db.chats == old(repo.db.chats)[pk := WithParticipant(old(repo.db.chats)[pk], userId.value)]
    ensures resp.status == OK ==> userId.value in repo.db.chats[pk].participants
    ensures repo.db.users == old(repo.db.users) && repo.db.messages == old(repo.db.messages) && repo.db.files == old(repo.db.files)
  {
    if userId.None? || userId.value == 0 {
      return Response(BAD_REQUEST, ErrorText("user_id is required"), map[]);
    }
    var u := userId.value;
    if u !in repo.db.users {
      return NotFound("User");
    }
    var chat := repo.AddParticipant(pk, u);
    if chat.None? {
      return Response(NOT_FOUND, ErrorText("Chat not found"), map[]);
    }
    return Response(OK, StatusText("participant added"), map[]);
  }

  /** `remove_participant`: on 200 the user is no participant of chat `pk`; otherwise nothing changes. */
  method RemoveParticipant(repo: Repositories.ChatRepository, pk: ChatId, userId: Option<int>) returns (resp: Response<()>)
    requires repo.db.Valid()
    modifies repo.db
    ensures repo.db.Valid()
    ensures resp == ParticipantResponse(userId, old(repo.db.users), old(repo.db.chats).Keys, pk, "participant removed")
    ensures resp.status != OK ==> repo.db.chats == old(repo.db.chats)
    ensures resp.status == OK ==> repo.db.chats == old(repo.db.chats)[pk := WithoutParticipant(old(repo.db.chats)[pk], userId.value)]
    ensures resp.status == OK ==> userId.value !in repo.db.chats[pk].participants
    ensures repo.db.users == old(repo.db.users) && repo.db.messages == old(repo.db.messages) && repo.db.files == old(repo.db.files)
  {
    if userId.None? || userId.value == 0 {
      return Response(BAD_REQUEST, ErrorText("user_id is required"), map[]);
    }
    var u := userId.value;
    if u !in repo.db.users {
      return NotFound("User");
    }
    var chat := repo.RemoveParticipant(pk, u);
    if chat.None? {
      return Response(NOT_FOUND, ErrorText("Chat not found"), map[]);
    }
    return Response(OK, StatusText("participant removed"), map[]);
  }

  /**
   * The actions resolve the chat by id alone, not through `get_queryset()`: any
   * user may add themselves to a chat they cannot see.
   */
  lemma AnyUserCanJoinUnseenChat(db: Store.Database, pk: ChatId, requester: UserId)
    requires db.Valid() && pk in db.chats && requester in db.users && requester != 0
    requires db.chats[pk] !in GetQueryset(db, requester)
    ensures ParticipantResponse(Some(requester), db.users, db.chats.Keys, pk, "participant added").status == OK
    ensures requester in WithParticipant(db.chats[pk], requester).participants
  {
  }
}
