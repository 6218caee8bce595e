/**
 * `ChatQuerySet`: side-effect-free filters and orderings over a sequence of chats.
 * `ChatManager` applies the same operations to the whole table, so it is not
 * modelled separately: its methods are these functions applied to the table's rows.
 */
module ChatQueries {
  import opened Seqs
  import opened ChatModel
  import Text

  /** `active()`: `filter(is_active=True)`. */
  function Active(qs: seq<Chat>): (r: seq<Chat>)
    ensures forall c :: c in r <==> c in qs && c.isActive
    ensures forall c :: multiset(r)[c] == if c.isActive then multiset(qs)[c] else 0
    ensures IsSubseq(r, qs)
  {
    Select(qs, (c: Chat) => c.isActive)
  }

  /** `inactive()`: `filter(is_active=False)`. */
  function Inactive(qs: seq<Chat>): (r: seq<Chat>)
    ensures forall c :: c in r <==> c in qs && !c.isActive
    ensures forall c :: multiset(r)[c] == if !c.isActive then multiset(qs)[c] else 0
    ensures IsSubseq(r, qs)
  {
    Select(qs, (c: Chat) => !c.isActive)
  }

  /** `with_participant(user)`: `filter(participants=user)`. */
  function WithParticipant(qs: seq<Chat>, u: UserId): (r: seq<Chat>)
    ensures forall c :: c in r <==> c in qs && u in c.participants
    ensures forall c :: multiset(r)[c] == if u in c.participants then multiset(qs)[c] else 0
    ensures IsSubseq(r, qs)
  {
    Select(qs, (c: Chat) => u in c.participants)
  }

  /** `created_by_user(user)`: `filter(created_by=user)`. */
  function CreatedByUser(qs: seq<Chat>, u: UserId): (r: seq<Chat>)
    ensures forall c :: c in r <==> c in qs && c.createdBy == u
    ensures forall c :: multiset(r)[c] == if c.createdBy == u then multiset(qs)[c] else 0
    ensures IsSubseq(r, qs)
  {
    Select(qs, (c: Chat) => c.createdBy == u)
  }

  /** `recent()`: `order_by("-updated_at")`, the most recently updated first. */
  function Recent(qs: seq<Chat>): (r: seq<Chat>)
    ensures multiset(r) == multiset(qs)
    ensures forall i, j :: 0 <= i < j < |r| ==> r[i].updatedAt >= r[j].updatedAt
  {
    SortBy(qs, (c: Chat) => c.updatedAt, true)
  }

  /** `with_title(title)`: `filter(title__icontains=title)`. */
  function WithTitle(qs: seq<Chat>, q: string): (r: seq<Chat>)
    ensures forall c :: c in r <==> c in qs && Text.IContains(c.title, q)
    ensures forall c :: multiset(r)[c] == if Text.IContains(c.title, q) then multiset(qs)[c] else 0
    ensures IsSubseq(r, qs)
  {
    Select(qs, (c: Chat) => Text.IContains(c.title, q))
  }

  /**
   * `filter(Q(created_by=user) | Q(participants=user))`: the chats `u` can see, as
   * creator or as participant; the creator is not a participant unless added.
   */
  function CreatorOrParticipant(qs: seq<Chat>, u: UserId): (r: seq<Chat>)
    ensures forall c :: c in r <==> c in qs && (c.createdBy == u || u in c.participants)
    ensures forall c :: multiset(r)[c] == if c.createdBy == u || u in c.participants then multiset(qs)[c] else 0
    ensures IsSubseq(r, qs)
  {
    Select(qs, (c: Chat) => c.createdBy == u || u in c.participants)
  }

  /** Every chat is in exactly one of `active()` and `inactive()`. */
  lemma ActiveInactivePartition(qs: seq<Chat>)
    ensures multiset(Active(qs)) + multiset(Inactive(qs)) == multiset(qs)
    ensures |Active(qs)| + |Inactive(qs)| == |qs|
  {
    SelectPartition(qs, (c: Chat) => c.isActive, (c: Chat) => !c.isActive);
  }

  /** Filters compose as a conjunction, in either order. */
  lemma ChainedFiltersCommute(qs: seq<Chat>, u: UserId, q: string)
    ensures WithParticipant(Active(qs), u) == Active(WithParticipant(qs, u))
    ensures CreatedByUser(WithTitle(qs, q), u) == WithTitle(CreatedByUser(qs, u), q)
  {
    SelectCommutes(qs, (c: Chat) => c.isActive, (c: Chat) => u in c.participants);
    SelectCommutes(qs, (c: Chat) => Text.IContains(c.title, q), (c: Chat) => c.createdBy == u);
  }

  /** An empty search matches every chat. */
  lemma WithTitleEmptyQuery(qs: seq<Chat>)
    ensures WithTitle(qs, "") == qs
  {
    forall c | c in qs ensures Text.IContains(c.title, "") {
      Text.IContainsEmpty(c.title);
    }
    SelectAll(qs, (c: Chat) => Text.IContains(c.title, ""));
  }
}
