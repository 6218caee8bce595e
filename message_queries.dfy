/**
 * `MessageQuerySet`: side-effect-free filters and orderings over a sequence of
 * messages. `MessageManager` only delegates to them over the whole table.
 */
module MessageQueries {
  import opened Wrappers
  import opened Seqs
  import opened ChatModel
  import opened MessageModel

  /** `for_chat(chat)`: `filter(chat=chat)`. */
  function ForChat(qs: seq<Message>, chat: ChatId): (r: seq<Message>)
    ensures forall m :: m in r <==> m in qs && m.chat == chat
    ensures forall m :: multiset(r)[m] == if m.chat == chat then multiset(qs)[m] else 0
    ensures IsSubseq(r, qs)
  {
    Select(qs, (m: Message) => m.chat == chat)
  }

  /** `from_user(user)`: `filter(sender=user)`. */
  function FromUser(qs: seq<Message>, u: UserId): (r: seq<Message>)
    ensures forall m :: m in r <==> m in qs && m.sender == u
    ensures forall m :: multiset(r)[m] == if m.sender == u then multiset(qs)[m] else 0
    ensures IsSubseq(r, qs)
  {
    Select(qs, (m: Message) => m.sender == u)
  }

  /** `with_context()`: `exclude(context_index__isnull=True)`. */
  function WithContext(qs: seq<Message>): (r: seq<Message>)
    ensures forall m :: m in r <==> m in qs && m.contextIndex.Some?
    ensures forall m :: multiset(r)[m] == if m.contextIndex.Some? then multiset(qs)[m] else 0
    ensures IsSubseq(r, qs)
  {
    Select(qs, (m: Message) => HasContext(m))
  }

  /** `without_context()`: `filter(context_index__isnull=True)`. */
  function WithoutContext(qs: seq<Message>): (r: seq<Message>)
    ensures forall m :: m in r <==> m in qs && m.contextIndex.None?
    ensures forall m :: multiset(r)[m] == if m.contextIndex.None? then multiset(qs)[m] else 0
    ensures IsSubseq(r, qs)
  {
    Select(qs, (m: Message) => !HasContext(m))
  }

  /** `recent()`: `order_by("-created_at")`, newest first. */
  function Recent(qs: seq<Message>): (r: seq<Message>)
    ensures multiset(r) == multiset(qs)
    ensures forall i, j :: 0 <= i < j < |r| ==> r[i].createdAt >= r[j].createdAt
  {
    SortBy(qs, (m: Message) => m.createdAt, true)
  }

  /** `oldest()`: `order_by("created_at")`, oldest first; also the model's default ordering. */
  function Oldest(qs: seq<Message>): (r: seq<Message>)
    ensures multiset(r) == multiset(qs)
    ensures forall i, j :: 0 <= i < j < |r| ==> r[i].createdAt <= r[j].createdAt
  {
    SortBy(qs, (m: Message) => m.createdAt, false)
  }

  /** `between_dates(start, end)`: `filter(created_at__range=(start, end))`, both ends included. */
  function BetweenDates(qs: seq<Message>, start: int, end: int): (r: seq<Message>)
    ensures forall m :: m in r <==> m in qs && start <= m.createdAt <= end
    ensures forall m :: multiset(r)[m] == if start <= m.createdAt <= end then multiset(qs)[m] else 0
    ensures IsSubseq(r, qs)
  {
    Select(qs, (m: Message) => start <= m.createdAt <= end)
  }

  /** Every message is in exactly one of `with_context()` and `without_context()`. */
  lemma ContextPartition(qs: seq<Message>)
    ensures multiset(WithContext(qs)) + multiset(WithoutContext(qs)) == multiset(qs)
    ensures |WithContext(qs)| + |WithoutContext(qs)| == |qs|
  {
    SelectPartition(qs, (m: Message) => HasContext(m), (m: Message) => !HasContext(m));
  }

  /** A reversed date range selects nothing. */
  lemma BetweenDatesEmptyRange(qs: seq<Message>, start: int, end: int)
    requires start > end
    ensures BetweenDates(qs, start, end) == []
  {
    SelectNone(qs, (m: Message) => start <= m.createdAt <= end);
  }

  /** Filters compose as a conjunction, in either order. */
  lemma ChainedFiltersCommute(qs: seq<Message>, chat: ChatId, u: UserId)
    ensures FromUser(ForChat(qs, chat), u) == ForChat(FromUser(qs, u), chat)
    ensures WithContext(ForChat(qs, chat)) == ForChat(WithContext(qs), chat)
  {
    SelectCommutes(qs, (m: Message) => m.chat == chat, (m: Message) => m.sender == u);
    SelectCommutes(qs, (m: Message) => m.chat == chat, (m: Message) => HasContext(m));
  }
}
