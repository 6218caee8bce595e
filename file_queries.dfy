/**
 * `FileQuerySet`: side-effect-free filters and orderings over a sequence of files.
 * `FileManager` only delegates to them over the whole table.
 */
module FileQueries {
  import opened Seqs
  import opened ChatModel
  import opened FileModel
  import Text

  /** `for_chat(chat)`: `filter(chat=chat)`. */
  function ForChat(qs: seq<File>, chat: ChatId): (r: seq<File>)
    ensures forall f :: f in r <==> f in qs && f.chat == chat
    ensures forall f :: multiset(r)[f] == if f.chat == chat then multiset(qs)[f] else 0
    ensures IsSubseq(r, qs)
  {
    Select(qs, (f: File) => f.chat == chat)
  }

  /** `uploaded_by_user(user)`: `filter(uploaded_by=user)`. */
  function UploadedByUser(qs: seq<File>, u: UserId): (r: seq<File>)
    ensures forall f :: f in r <==> f in qs && f.uploadedBy == u
    ensures forall f :: multiset(r)[f] == if f.uploadedBy == u then multiset(qs)[f] else 0
    ensures IsSubseq(r, qs)
  {
    Select(qs, (f: File) => f.uploadedBy == u)
  }

  /** `by_file_type(t)`: exact equality on `file_type`. */
  function ByFileType(qs: seq<File>, t: string): (r: seq<File>)
    ensures forall f :: f in r <==> f in qs && f.fileType == t
    ensures forall f :: multiset(r)[f] == if f.fileType == t then multiset(qs)[f] else 0
    ensures IsSubseq(r, qs)
  {
    Select(qs, (f: File) => f.fileType == t)
  }

  /** `recent()`: `order_by("-uploaded_at")`, newest first; also the model's default ordering. */
  function Recent(qs: seq<File>): (r: seq<File>)
    ensures multiset(r) == multiset(qs)
    ensures forall i, j :: 0 <= i < j < |r| ==> r[i].uploadedAt >= r[j].uploadedAt
  {
    SortBy(qs, (f: File) => f.uploadedAt, true)
  }

  /** `oldest()`: `order_by("uploaded_at")`, oldest first. */
  function Oldest(qs: seq<File>): (r: seq<File>)
    ensures multiset(r) == multiset(qs)
    ensures forall i, j :: 0 <= i < j < |r| ==> r[i].uploadedAt <= r[j].uploadedAt
  {
    SortBy(qs, (f: File) => f.uploadedAt, false)
  }

  /** `with_name(name)`: `filter(file_name__icontains=name)`. */
  function WithName(qs: seq<File>, q: string): (r: seq<File>)
    ensures forall f :: f in r <==> f in qs && Text.IContains(f.fileName, q)
    ensures forall f :: multiset(r)[f] == if Text.IContains(f.fileName, q) then multiset(qs)[f] else 0
    ensures IsSubseq(r, qs)
  {
    Select(qs, (f: File) => Text.IContains(f.fileName, q))
  }

  /** `larger_than(n)`: `filter(file_size__gt=n)`, strictly larger. */
  function LargerThan(qs: seq<File>, n: int): (r: seq<File>)
    ensures forall f :: f in r <==> f in qs && f.fileSize > n
    ensures forall f :: multiset(r)[f] == if f.fileSize > n then multiset(qs)[f] else 0
    ensures IsSubseq(r, qs)
  {
    Select(qs, (f: File) => f.fileSize > n)
  }

  /** `smaller_than(n)`: `filter(file_size__lt=n)`, strictly smaller. */
  function SmallerThan(qs: seq<File>, n: int): (r: seq<File>)
    ensures forall f :: f in r <==> f in qs && f.fileSize < n
    ensures forall f :: multiset(r)[f] == if f.fileSize < n then multiset(qs)[f] else 0
    ensures IsSubseq(r, qs)
  {
    Select(qs, (f: File) => f.fileSize < n)
  }

  /** Both size bounds are strict: a file of exactly `n` bytes is in neither result, and the two are disjoint. */
  lemma SizeBoundsStrict(qs: seq<File>, n: int)
    ensures forall f :: f in qs && f.fileSize == n ==> f !in LargerThan(qs, n) && f !in SmallerThan(qs, n)
    ensures multiset(LargerThan(qs, n)) * multiset(SmallerThan(qs, n)) == multiset{}
    ensures |LargerThan(qs, n)| + |SmallerThan(qs, n)| + |Select(qs, (f: File) => f.fileSize == n)| == |qs|
  {
    var big, small := LargerThan(qs, n), SmallerThan(qs, n);
    var notBig := Select(qs, (f: File) => f.fileSize <= n);
    SelectPartition(qs, (f: File) => f.fileSize > n, (f: File) => f.fileSize <= n);
    SelectSelect(qs, (f: File) => f.fileSize <= n, (f: File) => f.fileSize < n, (f: File) => f.fileSize < n);
    SelectSelect(qs, (f: File) => f.fileSize <= n, (f: File) => f.fileSize >= n, (f: File) => f.fileSize == n);
    SelectPartition(notBig, (f: File) => f.fileSize < n, (f: File) => f.fileSize >= n);
    assert forall f :: (multiset(big) * multiset(small))[f] == 0;
  }

  /** Filters compose as a conjunction, in either order. */
  lemma ChainedFiltersCommute(qs: seq<File>, chat: ChatId, t: string)
    ensures ByFileType(ForChat(qs, chat), t) == ForChat(ByFileType(qs, t), chat)
  {
    SelectCommutes(qs, (f: File) => f.chat == chat, (f: File) => f.fileType == t);
  }
}
