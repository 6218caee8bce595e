/**
 * `ChatRepository`: the chat lifecycle over the store. Lookups are functions of
 * the store; create, update, participant changes and delete are methods that
 * change it and say exactly what else stays the same.
 */
module Repositories {
  import opened Wrappers
  import opened Seqs
  import opened ChatModel
  import ChatQueries
  import Text
  import MessageModel
  import FileModel
  import Store

  /** Slicing a queryset with a negative bound is refused by the ORM. */
  datatype QueryError = NegativeIndexing

  /**
   * The assignments `update_chat` makes on the instance it read: each given value
   * replaces its column and names it in `update_fields`; columns not given keep
   * their values and are not named.
   */
  method AssignGiven(row: Chat, title: Option<string>, prompt: Option<string>, isActive: Option<bool>)
    returns (chat: Chat, updateFields: set<Store.ChatColumn>)
    ensures chat == row.(title := chat.title, prompt := chat.prompt, isActive := chat.isActive)
    ensures chat.title == (if title.Some? then title.value else row.title)
    ensures chat.prompt == (if prompt.Some? then prompt.value else row.prompt)
    ensures chat.isActive == (if isActive.Some? then isActive.value else row.isActive)
    ensures Store.TitleColumn in updateFields <==> title.Some?
    ensures Store.PromptColumn in updateFields <==> prompt.Some?
    ensures Store.IsActiveColumn in updateFields <==> isActive.Some?
    ensures updateFields == {} <==> title.None? && prompt.None? && isActive.None?
  {
    chat := row;
    updateFields := {};
    if title.Some? {
      chat := chat.(title := title.value);
      updateFields := updateFields + {Store.TitleColumn};
    }
    if prompt.Some? {
      chat := chat.(prompt := prompt.value);
      updateFields := updateFields + {Store.PromptColumn};
    }
    if isActive.Some? {
      chat := chat.(isActive := isActive.value);
      updateFields := updateFields + {Store.IsActiveColumn};
    }
  }

  class ChatRepository {
    const db: Store.Database

    constructor (db: Store.Database)
      ensures this.db == db
    {
      this.db := db;
    }

    /**
     * `create(title, created_by, prompt="", is_active=True, participants=None)`:
     * a new chat with exactly these columns; its participants are the given users
     * (none when the list is empty), so the creator is a participant only if listed.
     */
    method Create(title: string, createdBy: UserId, prompt: string := "", isActive: bool := true,
                  participants: seq<UserId> := [])
      returns (c: Chat)
      requires db.Valid() && createdBy in db.users
      requires forall u :: u in participants ==> u in db.users
      modifies db
      ensures db.Valid()
      ensures c.id > 0 && c.id !in old(db.chats) && db.chats == old(db.chats)[c.id := c]
      ensures c.title == title && c.prompt == prompt && c.isActive == isActive && c.createdBy == createdBy
      ensures c.participants == set u | u in participants
      ensures c.createdAt == c.updatedAt == db.clock > old(db.clock)
      ensures db.users == old(db.users) && db.messages == old(db.messages) && db.files == old(db.files)
    {
      c := db.CreateChat(title, prompt, isActive, createdBy);
      if participants != [] {
        var ids := set u | u in participants;
        forall u | u in ids ensures u in db.users {
          assert u in participants;
        }
        var ok := db.SetParticipants(c.id, ids);
        c := db.chats[c.id];
      } else {
        assert (set u | u in participants) == {};
      }
    }

    /**
     * `create(title, created_by)` with every optional argument left out: an empty
     * prompt, an active chat, and no participants, not even its creator.
     */
    method CreateWithDefaults(title: string, createdBy: UserId) returns (c: Chat)
      requires db.Valid() && createdBy in db.users
      modifies db
      ensures db.Valid()
      ensures c.id > 0 && c.id !in old(db.chats) && db.chats == old(db.chats)[c.id := c]
      ensures c.title == title && c.prompt == "" && c.isActive && c.createdBy == createdBy
      ensures c.participants == {}
      ensures c.createdAt == c.updatedAt == db.clock > old(db.clock)
      ensures db.users == old(db.users) && db.messages == old(db.messages) && db.files == old(db.files)
    {
      c := Create(title, createdBy);
    }

    /** `get_by_id(id)`: `filter(id=chat_id).first()`, the chat stored under `id` or none. */
    function GetById(id: ChatId): (r: Option<Chat>)
      reads db
      requires db.Valid()
      ensures r.Some? <==> id in db.chats
      ensures r.Some? ==> r.value == db.chats[id]
    {
      var hits := Select(db.ChatObjects(), (c: Chat) => c.id == id);
      assert id in db.chats ==> db.chats[id] in hits;
      if hits == [] then None
      else
        assert hits[0] in hits;
        Some(hits[0])
    }

    /** `get_active_chats()`: every active chat once, most recently updated first. */
    function GetActiveChats(): (r: seq<Chat>)
      reads db
      requires db.Valid()
      ensures forall c :: c in r <==> c.id in db.chats && db.chats[c.id] == c && c.isActive
      ensures NoDuplicates(r)
      ensures forall i, j :: 0 <= i < j < |r| ==> r[i].updatedAt >= r[j].updatedAt
    {
      var all := db.ChatObjects();
      SelectNoDuplicates(all, (c: Chat) => c.isActive);
      SelectKeepsOrder(all, (c: Chat) => c.isActive, (c: Chat) => c.updatedAt, true);
      ChatQueries.Active(all)
    }

    /** `get_user_chats(u)`: the chats `u` created or takes part in, each once. */
    function GetUserChats(u: UserId): (r: seq<Chat>)
      reads db
      requires db.Valid()
      ensures forall c :: c in r <==> c.id in db.chats && db.chats[c.id] == c && (c.createdBy == u || u in c.participants)
      ensures NoDuplicates(r)
      ensures forall i, j :: 0 <= i < j < |r| ==> r[i].updatedAt >= r[j].updatedAt
    {
      var all := db.ChatObjects();
      var p := (c: Chat) => c.createdBy == u || u in c.participants;
      SelectNoDuplicates(all, p);
      SelectKeepsOrder(all, p, (c: Chat) => c.updatedAt, true);
      ChatQueries.CreatorOrParticipant(all, u)
    }

    /**
     * `get_recent_chats(limit)`: `recent()[:limit]`, the `limit` most recently updated
     * chats (all of them when there are fewer); a negative limit is refused.
     */
    function GetRecentChats(limit: int := 10): (r: Result<seq<Chat>, QueryError>)
      reads db
      requires db.Valid()
      ensures r.Failure? <==> limit < 0
      ensures r.Success? ==> |r.value| <= limit
      ensures r.Success? ==> forall c :: c in r.value ==> c.id in db.chats && db.chats[c.id] == c
      ensures r.Success? ==> NoDuplicates(r.value)
      ensures r.Success? ==> forall i, j :: 0 <= i < j < |r.value| ==> r.value[i].updatedAt >= r.value[j].updatedAt
      ensures r.Success? ==> forall c: Chat :: c.id in db.chats && db.chats[c.id] == c && c !in r.value ==>
                |r.value| == limit && forall x :: x in r.value ==> x.updatedAt >= c.updatedAt
    {
      if limit < 0 then Failure(NegativeIndexing)
      else
        var all := db.ChatObjects();
        var recent := ChatQueries.Recent(all);
        SameElements(recent, all);
        var k := if limit < |recent| then limit else |recent|;
        TakeOfSorted(recent, k, (c: Chat) => c.updatedAt, true);
        Success(recent[..k])
    }

    /** `get_recent_chats()` with the default limit: at most ten chats, never an error. */
    lemma DefaultRecentChats()
      requires db.Valid()
      ensures GetRecentChats() == GetRecentChats(10)
      ensures GetRecentChats().Success? && |GetRecentChats().value| <= 10
      ensures forall c: Chat :: c.id in db.chats && db.chats[c.id] == c && c !in GetRecentChats().value ==>
                |GetRecentChats().value| == 10
    {
    }

    /**
     * `update_chat(id, title=None, prompt=None, is_active=None)`: writes exactly the
     * given columns with `save(update_fields=...)`, so `updated_at` keeps its value;
     * with no column given nothing is written. An absent chat gives none.
     */
    method UpdateChat(id: ChatId, title: Option<string>, prompt: Option<string>, isActive: Option<bool>)
      returns (r: Option<Chat>)
      requires db.Valid()
      modifies db
      ensures db.Valid()
      ensures r.None? <==> id !in old(db.chats)
      ensures r.None? ==> db.chats == old(db.chats)
      ensures r.Some? ==> db.chats == old(db.chats)[id := r.value]
      ensures r.Some? ==> r.value == old(db.chats)[id].(title := r.value.title, prompt := r.value.prompt, isActive := r.value.isActive)
      ensures r.Some? ==> r.value.title == if title.Some? then title.value else old(db.chats)[id].title
      ensures r.Some? ==> r.value.prompt == if prompt.Some? then prompt.value else old(db.chats)[id].prompt
      ensures r.Some? ==> r.value.isActive == if isActive.Some? then isActive.value else old(db.chats)[id].isActive
      ensures title.None? && prompt.None? && isActive.None? ==> db.chats == old(db.chats)
      ensures db.clock == old(db.clock)
      ensures db.users == old(db.users) && db.messages == old(db.messages) && db.files == old(db.files)
    {
      // The lookup `get_by_id` makes; `GetById`'s contract shows it is this key test.
      if id !in db.chats {
        return None;
      }
      var row := db.chats[id];
      var chat, updateFields := AssignGiven(row, title, prompt, isActive);
      Store.WriteEditedColumns(row, chat, updateFields);
      assert chat.id == id;
      if updateFields != {} {
        db.SaveChatColumns(chat, updateFields);
      } else {
        assert chat == db.chats[id];
      }
      return Some(chat);
    }

    /** `add_participant(id, user)`: `u` becomes a participant (a member stays one); none if the chat is absent. */
    method AddParticipant(id: ChatId, u: UserId) returns (r: Option<Chat>)
      requires db.Valid() && u in db.users
      modifies db
      ensures db.Valid()
      ensures r.None? <==> id !in old(db.chats)
      ensures r.None? ==> db.chats == old(db.chats)
      ensures r.Some? ==> db.chats == old(db.chats)[id := WithParticipant(old(db.chats)[id], u)]
      ensures r.Some? ==> r.value == db.chats[id] && u in r.value.participants
      ensures db.clock == old(db.clock)
      ensures db.users == old(db.users) && db.messages == old(db.messages) && db.files == old(db.files)
    {
      var found := GetById(id);
      if found.None? {
        return None;
      }
      db.AddParticipant(id, u);
      return Some(db.chats[id]);
    }

    /** `remove_participant(id, user)`: `u` is no participant afterwards; none if the chat is absent. */
    method RemoveParticipant(id: ChatId, u: UserId) returns (r: Option<Chat>)
      requires db.Valid()
      modifies db
      ensures db.Valid()
      ensures r.None? <==> id !in old(db.chats)
      ensures r.None? ==> db.chats == old(db.chats)
      ensures r.Some? ==> db.chats == old(db.chats)[id := WithoutParticipant(old(db.chats)[id], u)]
      ensures r.Some? ==> r.value == db.chats[id] && u !in r.value.participants
      ensures db.clock == old(db.clock)
      ensures db.users == old(db.users) && db.messages == old(db.messages) && db.files == old(db.files)
    {
      var found := GetById(id);
      if found.None? {
        return None;
      }
      db.RemoveParticipant(id, u);
      return Some(db.chats[id]);
    }

    /** `delete_chat(id)`: true and the chat (with its messages and files) is gone, or false and nothing changes. */
    method DeleteChat(id: ChatId) returns (deleted: bool)
      requires db.Valid()
      modifies db
      ensures db.Valid()
      ensures deleted <==> id in old(db.chats)
      ensures !deleted ==> db.chats == old(db.chats) && db.messages == old(db.messages) && db.files == old(db.files)
      ensures deleted ==> db.chats == old(db.chats) - {id}
      ensures deleted ==> db.messages == MessageModel.Cascade(old(db.messages), {id}, {})
      ensures deleted ==> db.files == FileModel.Cascade(old(db.files), {id}, {})
      ensures id !in db.chats
      ensures db.users == old(db.users) && db.clock == old(db.clock)
    {
      var found := GetById(id);
      if found.None? {
        return false;
      }
      db.DeleteChat(id);
      return true;
    }

    /** `search_chats(q)`: the chats whose title contains `q`, ignoring case, each once. */
    function SearchChats(q: string): (r: seq<Chat>)
      reads db
      requires db.Valid()
      ensures forall c :: c in r <==> c.id in db.chats && db.chats[c.id] == c && Text.IContains(c.title, q)
      ensures NoDuplicates(r)
      ensures forall i, j :: 0 <= i < j < |r| ==> r[i].updatedAt >= r[j].updatedAt
    {
      var all := db.ChatObjects();
      var p := (c: Chat) => Text.IContains(c.title, q);
      SelectNoDuplicates(all, p);
      SelectKeepsOrder(all, p, (c: Chat) => c.updatedAt, true);
      ChatQueries.WithTitle(all, q)
    }
  }
}
