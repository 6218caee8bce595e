/**
 * The `Message` record: text sent by a user into a chat, with an optional
 * client-supplied context index that groups related messages.
 */
module MessageModel {
  import opened Wrappers
  import opened ChatModel

  type MessageId = int

  datatype Message = Message(
    id: MessageId,
    chat: ChatId,
    content: string,
    sender: UserId,
    contextIndex: Option<int>,
    createdAt: nat,
    updatedAt: nat)

  /** `context_index` is nullable: a message may belong to no context. */
  predicate HasContext(m: Message)
  {
    m.contextIndex.Some?
  }

  /**
   * The messages that survive deleting the chats `goneChats` and the users `goneUsers`:
   * both `chat` and `sender` cascade.
   */
  function Cascade(ms: map<MessageId, Message>, goneChats: set<ChatId>, goneUsers: set<UserId>): (r: map<MessageId, Message>)
    ensures forall k :: k in r ==> k in ms && r[k] == ms[k]
    ensures forall k :: k in r ==> r[k].chat !in goneChats && r[k].sender !in goneUsers
    ensures forall k :: k in ms && ms[k].chat !in goneChats && ms[k].sender !in goneUsers ==> k in r
  {
    map k | k in ms && ms[k].chat !in goneChats && ms[k].sender !in goneUsers :: ms[k]
  }
}
