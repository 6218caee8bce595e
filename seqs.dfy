/**
 * Sequence operations shared by the query layer: filtering (`filter`/`exclude`),
 * ordering (`order_by`), slicing (`[:n]`).
 */
module Seqs {

  /** `a` is a subsequence of `b`: its elements occur in `b`, in the same order. */
  predicate IsSubseq<T(==,!new)>(a: seq<T>, b: seq<T>)
    decreases |b|
  {
    a == [] || (b != [] && ((a[0] == b[0] && IsSubseq(a[1..], b[1..])) || IsSubseq(a, b[1..])))
  }

  /** The elements of `s` that satisfy `p`, in their original order. */
  function Select<T(==,!new)>(s: seq<T>, p: T -> bool): (r: seq<T>)
    ensures |r| <= |s|
    ensures forall x :: multiset(r)[x] == if p(x) then multiset(s)[x] else 0
    ensures forall x :: x in r <==> x in s && p(x)
    ensures IsSubseq(r, s)
  {
    if s == [] then []
    else
      var rest := Select(s[1..], p);
      assert s == [s[0]] + s[1..];
      if p(s[0]) then
        assert ([s[0]] + rest)[1..] == rest;
        [s[0]] + rest
      else
        rest
  }

  /** Chaining two filters keeps exactly the elements that pass both. */
  lemma {:induction false} SelectSelect<T(!new)>(s: seq<T>, p: T -> bool, q: T -> bool, pq: T -> bool)
    requires forall x :: pq(x) == (p(x) && q(x))
    ensures Select(Select(s, p), q) == Select(s, pq)
  {
    if s != [] {
      SelectSelect(s[1..], p, q, pq);
      var rest := Select(s[1..], p);
      if p(s[0]) {
        assert ([s[0]] + rest)[1..] == rest;
      }
    }
  }

  /** Two filters may be chained in either order. */
  lemma SelectCommutes<T(!new)>(s: seq<T>, p: T -> bool, q: T -> bool)
    ensures Select(Select(s, p), q) == Select(Select(s, q), p)
  {
    var both := (x: T) => p(x) && q(x);
    SelectSelect(s, p, q, both);
    SelectSelect(s, q, p, both);
  }

  /** A filter every element passes returns its input unchanged. */
  lemma {:induction false} SelectAll<T(!new)>(s: seq<T>, p: T -> bool)
    requires forall x :: x in s ==> p(x)
    ensures Select(s, p) == s
  {
    if s != [] {
      assert forall x :: x in s[1..] ==> p(x) by {
        forall x | x in s[1..] ensures p(x) {
          assert x in s;
        }
      }
      SelectAll(s[1..], p);
      assert p(s[0]);
      assert s == [s[0]] + s[1..];
    }
  }

  /** A filter no element passes returns nothing. */
  lemma SelectNone<T(!new)>(s: seq<T>, p: T -> bool)
    requires forall x :: x in s ==> !p(x)
    ensures Select(s, p) == []
  {
    var r := Select(s, p);
    assert |multiset(r)| == 0;
  }

  /** A filter and its complement split the input: every element lands in exactly one of them. */
  lemma SelectPartition<T(!new)>(s: seq<T>, p: T -> bool, q: T -> bool)
    requires forall x :: q(x) == !p(x)
    ensures multiset(Select(s, p)) + multiset(Select(s, q)) == multiset(s)
    ensures |Select(s, p)| + |Select(s, q)| == |s|
  {
    var a, b := Select(s, p), Select(s, q);
    assert forall x :: (multiset(a) + multiset(b))[x] == multiset(s)[x];
    assert multiset(a) + multiset(b) == multiset(s);
    assert |multiset(a) + multiset(b)| == |multiset(s)|;
  }

  /** Whether `a` may come before `b` when ordering by `key` (descending when `desc`). */
  predicate InOrder<T>(key: T -> int, desc: bool, a: T, b: T)
  {
    if desc then key(a) >= key(b) else key(a) <= key(b)
  }

  predicate SortedBy<T>(s: seq<T>, key: T -> int, desc: bool)
  {
    forall i, j :: 0 <= i < j < |s| ==> InOrder(key, desc, s[i], s[j])
  }

  /** Putting in front of a sorted sequence an element that may precede all of it keeps it sorted. */
  lemma ConsSorted<T>(h: T, rest: seq<T>, key: T -> int, desc: bool)
    requires SortedBy(rest, key, desc)
    requires forall y :: y in rest ==> InOrder(key, desc, h, y)
    ensures SortedBy([h] + rest, key, desc)
  {
    var r := [h] + rest;
    forall i, j | 0 <= i < j < |r| ensures InOrder(key, desc, r[i], r[j]) {
      assert r[j] == rest[j - 1];
      if i > 0 {
        assert r[i] == rest[i - 1];
      }
    }
  }

  /** The head of a sorted sequence may precede every later element. */
  lemma SortedHeadFirst<T>(s: seq<T>, key: T -> int, desc: bool)
    requires SortedBy(s, key, desc) && s != []
    ensures SortedBy(s[1..], key, desc)
    ensures forall y :: y in s[1..] ==> InOrder(key, desc, s[0], y)
  {
    forall y | y in s[1..] ensures InOrder(key, desc, s[0], y) {
      var j :| 0 <= j < |s[1..]| && s[1..][j] == y;
      assert s[j + 1] == y;
    }
    forall i, j | 0 <= i < j < |s[1..]| ensures InOrder(key, desc, s[1..][i], s[1..][j]) {
      assert s[1..][i] == s[i + 1] && s[1..][j] == s[j + 1];
    }
  }

  /** An element that may precede the head of a sorted sequence may precede all of it. */
  lemma PrependSmallest<T>(x: T, s: seq<T>, key: T -> int, desc: bool)
    requires SortedBy(s, key, desc)
    requires s == [] || InOrder(key, desc, x, s[0])
    ensures SortedBy([x] + s, key, desc)
  {
    forall y | y in s ensures InOrder(key, desc, x, y) {
      var j :| 0 <= j < |s| && s[j] == y;
      assert InOrder(key, desc, s[0], s[j]) || j == 0;
    }
    ConsSorted(x, s, key, desc);
  }

  function Insert<T(==,!new)>(x: T, s: seq<T>, key: T -> int, desc: bool): (r: seq<T>)
    requires SortedBy(s, key, desc)
    ensures multiset(r) == multiset(s) + multiset{x}
    ensures SortedBy(r, key, desc)
    decreases |s|
  {
    if s == [] || InOrder(key, desc, x, s[0]) then
      PrependSmallest(x, s, key, desc);
      [x] + s
    else
      SortedHeadFirst(s, key, desc);
      var rest := Insert(x, s[1..], key, desc);
      assert s == [s[0]] + s[1..];
      assert forall y :: y in rest ==> InOrder(key, desc, s[0], y) by {
        forall y | y in rest ensures InOrder(key, desc, s[0], y) {
          assert y in multiset(rest);
          if y != x {
            assert y in multiset(s[1..]);
          }
        }
      }
      ConsSorted(s[0], rest, key, desc);
      [s[0]] + rest
  }

  /** `order_by(key)` (ascending) or `order_by("-key")` (descending): a sorted permutation. */
  function SortBy<T(==,!new)>(s: seq<T>, key: T -> int, desc: bool): (r: seq<T>)
    ensures multiset(r) == multiset(s)
    ensures |r| == |s|
    ensures SortedBy(r, key, desc)
  {
    if s == [] then []
    else
      assert s == [s[0]] + s[1..];
      Insert(s[0], SortBy(s[1..], key, desc), key, desc)
  }

  /** Every element of the first `k` of a sorted sequence comes no later than every element after them. */
  lemma PrefixOfSortedIsTop<T>(s: seq<T>, k: nat, key: T -> int, desc: bool)
    requires SortedBy(s, key, desc) && k <= |s|
    ensures forall x, y :: x in s[..k] && y in s[k..] ==> InOrder(key, desc, x, y)
  {
    forall x, y | x in s[..k] && y in s[k..] ensures InOrder(key, desc, x, y) {
      var i :| 0 <= i < k && s[..k][i] == x;
      var j :| 0 <= j < |s| - k && s[k..][j] == y;
      assert s[i] == x && s[k + j] == y;
    }
  }

  /** Filtering a sorted sequence keeps it sorted. */
  lemma {:induction false} SelectKeepsOrder<T(!new)>(s: seq<T>, p: T -> bool, key: T -> int, desc: bool)
    requires SortedBy(s, key, desc)
    ensures SortedBy(Select(s, p), key, desc)
  {
    if s != [] {
      SortedHeadFirst(s, key, desc);
      SelectKeepsOrder(s[1..], p, key, desc);
      var rest := Select(s[1..], p);
      if p(s[0]) {
        assert forall y :: y in rest ==> y in s[1..];
        ConsSorted(s[0], rest, key, desc);
        assert Select(s, p) == [s[0]] + rest;
      } else {
        assert Select(s, p) == rest;
      }
    }
  }

  /** Filtering cannot introduce duplicates. */
  lemma SelectNoDuplicates<T(!new)>(s: seq<T>, p: T -> bool)
    requires NoDuplicates(s)
    ensures NoDuplicates(Select(s, p))
  {
  }

  /** No element occurs twice. */
  ghost predicate NoDuplicates<T(!new)>(s: seq<T>)
  {
    forall x :: multiset(s)[x] <= 1
  }

  lemma {:induction false} StrictKeysNoDuplicates<T(!new)>(s: seq<T>, id: T -> int)
    requires forall i, j :: 0 <= i < j < |s| ==> id(s[i]) < id(s[j])
    ensures NoDuplicates(s)
  {
    if s != [] {
      assert s == [s[0]] + s[1..];
      StrictKeysNoDuplicates(s[1..], id);
      assert forall j :: 0 <= j < |s[1..]| ==> s[1..][j] != s[0] by {
        forall j | 0 <= j < |s[1..]| ensures s[1..][j] != s[0] {
          assert id(s[0]) < id(s[j + 1]);
        }
      }
      assert s[0] !in s[1..];
    }
  }

  /** A permutation has the same members, and duplicates exactly when the original does. */
  lemma SameElements<T(!new)>(a: seq<T>, b: seq<T>)
    requires multiset(a) == multiset(b)
    ensures forall x :: x in a <==> x in b
    ensures NoDuplicates(a) <==> NoDuplicates(b)
  {
    forall x ensures x in a <==> x in b {
      assert x in a <==> x in multiset(a);
      assert x in b <==> x in multiset(b);
    }
  }

  /** Slicing `[:k]` keeps a prefix, so it cannot introduce duplicates. */
  lemma PrefixNoDuplicates<T(!new)>(s: seq<T>, k: nat)
    requires NoDuplicates(s) && k <= |s|
    ensures NoDuplicates(s[..k])
  {
    assert s == s[..k] + s[k..];
    assert multiset(s) == multiset(s[..k]) + multiset(s[k..]);
    assert forall x :: multiset(s[..k])[x] <= multiset(s)[x];
  }

  /**
   * Slicing `[:k]` of a sorted sequence without duplicates: the prefix is sorted,
   * has no duplicates, and every element left out comes no earlier than all kept.
   */
  lemma TakeOfSorted<T(!new)>(s: seq<T>, k: nat, key: T -> int, desc: bool)
    requires SortedBy(s, key, desc) && NoDuplicates(s) && k <= |s|
    ensures SortedBy(s[..k], key, desc) && NoDuplicates(s[..k])
    ensures forall x :: x in s[..k] ==> x in s
    ensures forall y :: y in s && y !in s[..k] ==> k < |s| && forall x :: x in s[..k] ==> InOrder(key, desc, x, y)
  {
    PrefixNoDuplicates(s, k);
    PrefixOfSortedIsTop(s, k, key, desc);
    assert s == s[..k] + s[k..];
    assert k == |s| ==> s[..k] == s;
    assert SortedBy(s[..k], key, desc) by {
      forall i, j | 0 <= i < j < k ensures InOrder(key, desc, s[..k][i], s[..k][j]) {
        assert s[..k][i] == s[i] && s[..k][j] == s[j];
      }
    }
  }
}
