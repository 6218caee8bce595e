/** Reading a table (a map from primary key to row) in primary-key order. */
module Tables {

  /** The row of key `k` may follow the rows of the keys below `k`, in key order. */
  lemma AppendRow<T>(prev: seq<T>, r: seq<T>, m: map<int, T>, k: nat, id: T -> int)
    requires forall k' :: k' in m ==> id(m[k']) == k'
    requires k in m && r == prev + [m[k]]
    requires forall i :: 0 <= i < |prev| ==> 0 <= id(prev[i]) < k && id(prev[i]) in m && m[id(prev[i])] == prev[i]
    requires forall k' :: 0 <= k' < k && k' in m ==> m[k'] in prev
    requires forall i, j :: 0 <= i < j < |prev| ==> id(prev[i]) < id(prev[j])
    ensures forall i :: 0 <= i < |r| ==> 0 <= id(r[i]) < k + 1 && id(r[i]) in m && m[id(r[i])] == r[i]
    ensures forall k' :: 0 <= k' < k + 1 && k' in m ==> m[k'] in r
    ensures forall i, j :: 0 <= i < j < |r| ==> id(r[i]) < id(r[j])
  {
    assert r[|prev|] == m[k] && id(m[k]) == k;
    forall i | 0 <= i < |r| ensures 0 <= id(r[i]) < k + 1 && id(r[i]) in m && m[id(r[i])] == r[i] {
      if i < |prev| {
        assert r[i] == prev[i];
      }
    }
    forall k' | 0 <= k' < k + 1 && k' in m ensures m[k'] in r {
      if k' < k {
        var i :| 0 <= i < |prev| && prev[i] == m[k'];
        assert r[i] == m[k'];
      }
    }
    forall i, j | 0 <= i < j < |r| ensures id(r[i]) < id(r[j]) {
      assert r[i] == prev[i];
      if j < |prev| {
        assert r[j] == prev[j];
      }
    }
  }

  /** Without a row of key `k`, the rows of the keys below `k` are those below `k + 1`. */
  lemma SkipRow<T>(prev: seq<T>, m: map<int, T>, k: nat, id: T -> int)
    requires k !in m
    requires forall i :: 0 <= i < |prev| ==> 0 <= id(prev[i]) < k && id(prev[i]) in m && m[id(prev[i])] == prev[i]
    requires forall k' :: 0 <= k' < k && k' in m ==> m[k'] in prev
    ensures forall i :: 0 <= i < |prev| ==> 0 <= id(prev[i]) < k + 1 && id(prev[i]) in m && m[id(prev[i])] == prev[i]
    ensures forall k' :: 0 <= k' < k + 1 && k' in m ==> m[k'] in prev
  {
  }

  /**
   * The rows of table `m` whose primary key is below `n`, in primary-key order;
   * `id` reads a row's own key, which must agree with where it is stored.
   */
  function Rows<T(==,!new)>(m: map<int, T>, n: nat, id: T -> int): (r: seq<T>)
    requires forall k :: k in m ==> id(m[k]) == k
    ensures forall i :: 0 <= i < |r| ==> 0 <= id(r[i]) < n && id(r[i]) in m && m[id(r[i])] == r[i]
    ensures forall k :: 0 <= k < n && k in m ==> m[k] in r
    ensures forall i, j :: 0 <= i < j < |r| ==> id(r[i]) < id(r[j])
    decreases n
  {
    if n == 0 then []
    else
      var prev := Rows(m, n - 1, id);
      if n - 1 !in m then
        SkipRow(prev, m, n - 1, id);
        prev
      else
        var r := prev + [m[n - 1]];
        AppendRow(prev, r, m, n - 1, id);
        r
  }
}
