/**
 * The relational store the models live in, in place of the ORM and its database:
 * one table per model keyed by primary key, the set of existing user ids, a
 * monotone clock for the automatic timestamps, and the next free primary keys.
 * `Valid` is the store's integrity: keys agree with rows, foreign keys resolve,
 * timestamps were issued by the clock, and file rows agree with their handles.
 */
module Store {
  import opened Wrappers
  import opened Seqs
  import opened Tables
  import opened ChatModel
  import opened MessageModel
  import opened FileModel
  import ChatQueries
  import MessageQueries
  import FileQueries

  /** A write that violates a foreign key. */
  datatype DbError = IntegrityError

  /** The concrete chat columns a partial `save(update_fields=...)` may name. */
  datatype ChatColumn = TitleColumn | PromptColumn | IsActiveColumn

  /** Row `row` after writing the columns `cols` from the in-memory instance `c`. */
  function WriteColumns(row: Chat, c: Chat, cols: set<ChatColumn>): (r: Chat)
    ensures r.title == if TitleColumn in cols then c.title else row.title
    ensures r.prompt == if PromptColumn in cols then c.prompt else row.prompt
    ensures r.isActive == if IsActiveColumn in cols then c.isActive else row.isActive
    ensures r == row.(title := r.title, prompt := r.prompt, isActive := r.isActive)
  {
    row.(title := if TitleColumn in cols then c.title else row.title,
         prompt := if PromptColumn in cols then c.prompt else row.prompt,
         isActive := if IsActiveColumn in cols then c.isActive else row.isActive)
  }

  /** Writing an instance's columns back onto the row it was read from, when it differs only in those columns, stores the instance. */
  lemma WriteEditedColumns(row: Chat, c: Chat, cols: set<ChatColumn>)
    requires c == row.(title := c.title, prompt := c.prompt, isActive := c.isActive)
    requires TitleColumn !in cols ==> c.title == row.title
    requires PromptColumn !in cols ==> c.prompt == row.prompt
    requires IsActiveColumn !in cols ==> c.isActive == row.isActive
    ensures WriteColumns(row, c, cols) == c
  {
  }

  class Database {
    var users: set<UserId>
    var chats: map<ChatId, Chat>
    var messages: map<MessageId, Message>
    var files: map<FileId, File>
    var clock: nat
    var nextChatId: nat
    var nextMessageId: nat
    var nextFileId: nat

    ghost predicate ChatRowOk(k: ChatId, c: Chat)
      reads this
    {
      c.id == k && 0 < k < nextChatId && c.createdBy in users && c.participants <= users
      && c.createdAt <= c.updatedAt <= clock
    }

    ghost predicate MessageRowOk(k: MessageId, m: Message)
      reads this
    {
      m.id == k && 0 < k < nextMessageId && m.chat in chats && m.sender in users
      && m.createdAt <= m.updatedAt <= clock
    }

    ghost predicate FileRowOk(k: FileId, f: File)
      reads this
    {
      f.id == k && 0 < k < nextFileId && f.chat in chats && f.uploadedBy in users
      && f.uploadedAt <= clock && HandleColumnsAgree(f)
    }

    ghost predicate Valid()
      reads this
    {
      && 0 < nextChatId && 0 < nextMessageId && 0 < nextFileId
      && (forall k :: k in chats ==> ChatRowOk(k, chats[k]))
      && (forall k :: k in messages ==> MessageRowOk(k, messages[k]))
      && (forall k :: k in files ==> FileRowOk(k, files[k]))
    }

    constructor (users: set<UserId>)
      ensures Valid()
      ensures this.users == users && chats == map[] && messages == map[] && files == map[]
      ensures clock == 0
    {
      this.users := users;
      chats, messages, files := map[], map[], map[];
      clock := 0;
      nextChatId, nextMessageId, nextFileId := 1, 1, 1;
    }

    /** The chat table in primary-key order. */
    function ChatRows(): (r: seq<Chat>)
      reads this
      requires Valid()
      ensures forall c :: c in r <==> c.id in chats && chats[c.id] == c
      ensures NoDuplicates(r)
    {
      var r := Rows(chats, nextChatId, (c: Chat) => c.id);
      StrictKeysNoDuplicates(r, (c: Chat) => c.id);
      r
    }

    /** `Chat.objects.all()`: every chat once, in the default ordering (`-updated_at`). */
    function ChatObjects(): (r: seq<Chat>)
      reads this
      requires Valid()
      ensures forall c :: c in r <==> c.id in chats && chats[c.id] == c
      ensures NoDuplicates(r)
      ensures forall i, j :: 0 <= i < j < |r| ==> r[i].updatedAt >= r[j].updatedAt
    {
      var rows := ChatRows();
      var r := ChatQueries.Recent(rows);
      SameElements(r, rows);
      r
    }

    function MessageRows(): (r: seq<Message>)
      reads this
      requires Valid()
      ensures forall m :: m in r <==> m.id in messages && messages[m.id] == m
      ensures NoDuplicates(r)
    {
      var r := Rows(messages, nextMessageId, (m: Message) => m.id);
      StrictKeysNoDuplicates(r, (m: Message) => m.id);
      r
    }

    /** `Message.objects.all()`: every message once, in the default ordering (`created_at`). */
    function MessageObjects(): (r: seq<Message>)
      reads this
      requires Valid()
      ensures forall m :: m in r <==> m.id in messages && messages[m.id] == m
      ensures NoDuplicates(r)
      ensures forall i, j :: 0 <= i < j < |r| ==> r[i].createdAt <= r[j].createdAt
    {
      var rows := MessageRows();
      var r := MessageQueries.Oldest(rows);
      SameElements(r, rows);
      r
    }

    function FileRows(): (r: seq<File>)
      reads this
      requires Valid()
      ensures forall f :: f in r <==> f.id in files && files[f.id] == f
      ensures NoDuplicates(r)
    {
      var r := Rows(files, nextFileId, (f: File) => f.id);
      StrictKeysNoDuplicates(r, (f: File) => f.id);
      r
    }

    /** `File.objects.all()`: every file once, in the default ordering (`-uploaded_at`). */
    function FileObjects(): (r: seq<File>)
      reads this
      requires Valid()
      ensures forall f :: f in r <==> f.id in files && files[f.id] == f
      ensures NoDuplicates(r)
      ensures forall i, j :: 0 <= i < j < |r| ==> r[i].uploadedAt >= r[j].uploadedAt
    {
      var rows := FileRows();
      var r := FileQueries.Recent(rows);
      SameElements(r, rows);
      r
    }

    /** The clock reading for an automatic timestamp: later than every timestamp already stored. */
    method Tick() returns (now: nat)
      requires Valid()
      modifies this
      ensures Valid()
      ensures clock == old(clock) + 1 && now == clock
      ensures users == old(users) && chats == old(chats) && messages == old(messages) && files == old(files)
      ensures nextChatId == old(nextChatId) && nextMessageId == old(nextMessageId) && nextFileId == old(nextFileId)
    {
      clock := clock + 1;
      now := clock;
    }

    /** `Chat.objects.create(...)`: a new row with no participants, both timestamps now. */
    method CreateChat(title: string, prompt: string, isActive: bool, createdBy: UserId) returns (c: Chat)
      requires Valid() && createdBy in users
      modifies this
      ensures Valid()
      ensures c.id > 0 && c.id !in old(chats)
      ensures c == Chat(c.id, title, prompt, isActive, createdBy, {}, clock, clock)
      ensures clock == old(clock) + 1
      ensures forall k :: k in old(chats) ==> old(chats)[k].updatedAt < c.updatedAt
      ensures chats == old(chats)[c.id := c]
      ensures users == old(users) && messages == old(messages) && files == old(files)
    {
      clock := clock + 1;
      c := Chat(nextChatId, title, prompt, isActive, createdBy, {}, clock, clock);
      chats := chats[nextChatId := c];
      nextChatId := nextChatId + 1;
    }

    /** A full `save()` of chat instance `c`: writes its columns and refreshes `updated_at`. */
    method SaveChat(c: Chat)
      requires Valid() && c.id in chats
      modifies this
      ensures Valid()
      ensures clock == old(clock) + 1
      ensures chats == old(chats)[c.id := WriteColumns(old(chats)[c.id], c, {TitleColumn, PromptColumn, IsActiveColumn}).(updatedAt := clock)]
      ensures users == old(users) && messages == old(messages) && files == old(files)
    {
      clock := clock + 1;
      chats := chats[c.id := WriteColumns(chats[c.id], c, {TitleColumn, PromptColumn, IsActiveColumn}).(updatedAt := clock)];
    }

    /**
     * `save(update_fields=cols)`: writes only the named columns; `updated_at`, not
     * being named, is neither recomputed nor written.
     */
    method SaveChatColumns(c: Chat, cols: set<ChatColumn>)
      requires Valid() && c.id in chats
      modifies this
      ensures Valid()
      ensures chats == old(chats)[c.id := WriteColumns(old(chats)[c.id], c, cols)]
      ensures clock == old(clock)
      ensures users == old(users) && messages == old(messages) && files == old(files)
    {
      chats := chats[c.id := WriteColumns(chats[c.id], c, cols)];
    }

    /** `chat.participants.add(u)`: idempotent; the chat row's columns are not saved. */
    method AddParticipant(id: ChatId, u: UserId)
      requires Valid() && id in chats && u in users
      modifies this
      ensures Valid()
      ensures chats == old(chats)[id := WithParticipant(old(chats)[id], u)]
      ensures clock == old(clock)
      ensures users == old(users) && messages == old(messages) && files == old(files)
    {
      chats := chats[id := WithParticipant(chats[id], u)];
    }

    /** `chat.participants.remove(u)`: removing a non-member is a no-op. */
    method RemoveParticipant(id: ChatId, u: UserId)
      requires Valid() && id in chats
      modifies this
      ensures Valid()
      ensures chats == old(chats)[id := WithoutParticipant(old(chats)[id], u)]
      ensures clock == old(clock)
      ensures users == old(users) && messages == old(messages) && files == old(files)
    {
      chats := chats[id := WithoutParticipant(chats[id], u)];
    }

    /**
     * `chat.participants.set(ids)`, atomic: either the participants become exactly `ids`,
     * or some id names no user and nothing changes.
     */
    method SetParticipants(id: ChatId, ids: set<UserId>) returns (r: Result<(), DbError>)
      requires Valid() && id in chats
      modifies this
      ensures Valid()
      ensures r.Success? <==> ids <= old(users)
      ensures r.Success? ==> chats == old(chats)[id := old(chats)[id].(participants := ids)]
      ensures r.Failure? ==> chats == old(chats)
      ensures clock == old(clock)
      ensures users == old(users) && messages == old(messages) && files == old(files)
    {
      if ids <= users {
        chats := chats[id := chats[id].(participants := ids)];
        r := Success(());
      } else {
        r := Failure(IntegrityError);
      }
    }

    /** `chat.delete()`: the chat goes, and with it its messages and files. */
    method DeleteChat(id: ChatId)
      requires Valid() && id in chats
      modifies this
      ensures Valid()
      ensures chats == old(chats) - {id}
      ensures messages == MessageModel.Cascade(old(messages), {id}, {})
      ensures files == FileModel.Cascade(old(files), {id}, {})
      ensures users == old(users) && clock == old(clock)
    {
      chats := chats - {id};
      messages := MessageModel.Cascade(messages, {id}, {});
      files := FileModel.Cascade(files, {id}, {});
    }

    /**
     * In a valid store no message and no file refers to a chat that is not there;
     * in particular, once `DeleteChat(id)` returns, the chat's message and file
     * listings are empty.
     */
    lemma NoRowsOfMissingChat(id: ChatId)
      requires Valid() && id !in chats
      ensures MessageQueries.ForChat(MessageObjects(), id) == []
      ensures FileQueries.ForChat(FileObjects(), id) == []
    {
      SelectNone(MessageObjects(), (m: Message) => m.chat == id);
      SelectNone(FileObjects(), (f: File) => f.chat == id);
    }

    /**
     * Deleting user `u`: the chats `u` created, every message `u` sent and every file
     * `u` uploaded go (and the messages and files of those chats); so do `u`'s
     * participant rows.
     */
    method DeleteUser(u: UserId)
      requires Valid()
      modifies this
      ensures Valid()
      ensures users == old(users) - {u}
      ensures chats == CascadeUserDelete(old(chats), u)
      ensures messages == MessageModel.Cascade(old(messages), set k | k in old(chats) && old(chats)[k].createdBy == u, {u})
      ensures files == FileModel.Cascade(old(files), set k | k in old(chats) && old(chats)[k].createdBy == u, {u})
      ensures clock == old(clock)
    {
      var gone := set k | k in chats && chats[k].createdBy == u;
      chats := CascadeUserDelete(chats, u);
      messages := MessageModel.Cascade(messages, gone, {u});
      files := FileModel.Cascade(files, gone, {u});
      users := users - {u};
    }

    /** `Message.objects.create(...)`: a new message, both timestamps now. */
    method CreateMessage(chat: ChatId, content: string, sender: UserId, contextIndex: Option<int>) returns (m: Message)
      requires Valid() && chat in chats && sender in users
      modifies this
      ensures Valid()
      ensures m.id > 0 && m.id !in old(messages)
      ensures m == Message(m.id, chat, content, sender, contextIndex, clock, clock)
      ensures clock == old(clock) + 1
      ensures messages == old(messages)[m.id := m]
      ensures users == old(users) && chats == old(chats) && files == old(files)
    {
      clock := clock + 1;
      m := Message(nextMessageId, chat, content, sender, contextIndex, clock, clock);
      messages := messages[nextMessageId := m];
      nextMessageId := nextMessageId + 1;
    }

    /** The next free primary key of the file table. */
    method NewFileId() returns (k: FileId)
      requires Valid()
      modifies this
      ensures Valid()
      ensures k > 0 && k !in files && nextFileId == k + 1
      ensures users == old(users) && chats == old(chats) && messages == old(messages) && files == old(files)
      ensures clock == old(clock)
    {
      k := nextFileId;
      nextFileId := nextFileId + 1;
    }

    /** Writes file row `f` under its key, inserting or replacing. */
    method PutFile(f: File)
      requires Valid() && f.id > 0 && f.chat in chats && f.uploadedBy in users
      requires f.uploadedAt <= clock && HandleColumnsAgree(f)
      modifies this
      ensures Valid()
      ensures files == old(files)[f.id := f]
      ensures users == old(users) && chats == old(chats) && messages == old(messages)
      ensures clock == old(clock)
    {
      files := files[f.id := f];
      if nextFileId <= f.id {
        nextFileId := f.id + 1;
      }
    }
  }
}
