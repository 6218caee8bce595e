/**
 * The `Chat` record: a room with a title, a prompt, an active flag, the user who
 * created it, a set of participants and two timestamps from the store's clock.
 */
module ChatModel {
  import Text

  type UserId = int
  type ChatId = int

  /** `title` is a `CharField(max_length=255, blank=True)`. */
  const TitleMaxLength: nat := 255
  /** Field defaults: a title may be left blank, `prompt` defaults to "", `is_active` to true. */
  const DefaultTitle: string := ""
  const DefaultPrompt: string := ""
  const DefaultIsActive: bool := true

  datatype Chat = Chat(
    id: ChatId,
    title: string,
    prompt: string,
    isActive: bool,
    createdBy: UserId,
    participants: set<UserId>,
    createdAt: nat,
    updatedAt: nat)

  predicate TitleFits(title: string)
  {
    |title| <= TitleMaxLength
  }

  /** `Chat.__str__`: the title, or "Chat <id>" when the title is blank; never empty. */
  function ChatStr(c: Chat): (r: string)
    ensures r != []
    ensures c.title != [] ==> r == c.title
    ensures c.title == [] ==> r == "Chat " + Text.IntToString(c.id)
  {
    if c.title != [] then c.title else "Chat " + Text.IntToString(c.id)
  }

  /** `participants.add(u)` on one chat: the participants form a set. */
  function WithParticipant(c: Chat, u: UserId): (r: Chat)
    ensures r.participants == c.participants + {u}
    ensures r == c.(participants := r.participants)
  {
    c.(participants := c.participants + {u})
  }

  /** `participants.remove(u)` on one chat. */
  function WithoutParticipant(c: Chat, u: UserId): (r: Chat)
    ensures r.participants == c.participants - {u}
    ensures r == c.(participants := r.participants)
  {
    c.(participants := c.participants - {u})
  }

  /** Adding the same user twice leaves a single membership. */
  lemma AddParticipantIdempotent(c: Chat, u: UserId)
    ensures WithParticipant(WithParticipant(c, u), u) == WithParticipant(c, u)
    ensures u in c.participants ==> WithParticipant(c, u) == c
  {
  }

  /** Removing a non-member changes nothing; add then remove restores a chat the user was not in. */
  lemma RemoveParticipantIdempotent(c: Chat, u: UserId)
    ensures u !in c.participants ==> WithoutParticipant(c, u) == c
    ensures u !in c.participants ==> WithoutParticipant(WithParticipant(c, u), u) == c
  {
  }

  /**
   * Deleting user `u`: `created_by` cascades, so the chats `u` created go, and
   * the participant rows of `u` go from the chats that stay.
   */
  function CascadeUserDelete(chats: map<ChatId, Chat>, u: UserId): (r: map<ChatId, Chat>)
    ensures forall k :: k in r <==> k in chats && chats[k].createdBy != u
    ensures forall k :: k in r ==> r[k] == WithoutParticipant(chats[k], u)
    ensures forall k :: k in r ==> r[k].createdBy != u && u !in r[k].participants
  {
    map k | k in chats && chats[k].createdBy != u :: WithoutParticipant(chats[k], u)
  }
}
