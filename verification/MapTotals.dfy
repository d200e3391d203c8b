/** Maps from keys to amounts: a missing key stands for nothing, and the amounts have a sum. */
module MapTotals {

  function Got<K>(m: map<K, nat>, k: K): nat {
    if k in m then m[k] else 0
  }

  function Plus<K>(m: map<K, nat>, k: K, n: nat): map<K, nat> {
    m[k := Got(m, k) + n]
  }

  /** Adding to one key, told key by key. */
  lemma IsPlus<K>(m: map<K, nat>, k: K, n: nat, t: map<K, nat>)
    requires t.Keys == m.Keys + {k} && forall j | j in t :: t[j] == Got(m, j) + if j == k then n else 0
    ensures t == Plus(m, k, n)
  {
  }

  lemma GotPlus<K>(m: map<K, nat>, k: K, n: nat, j: K)
    ensures Got(Plus(m, k, n), j) == Got(m, j) + if j == k then n else 0
  {
  }

  /** The sum of a map's values. */
  ghost function Total<K>(m: map<K, nat>): nat
    decreases |m|
  {
    if m == map[] then 0
    else
      var k :| k in m;
      OneLess(m, k);
      m[k] + Total(m - {k})
  }

  lemma OneLess<K>(m: map<K, nat>, k: K)
    requires k in m
    ensures |m - {k}| == |m| - 1
  {
    assert (m - {k}).Keys == m.Keys - {k};
  }

  /** Whichever key is taken out first. */
  lemma {:induction false} TotalWithout<K>(m: map<K, nat>, k: K)
    requires k in m
    ensures Total(m) == m[k] + Total(m - {k})
    decreases |m|
  {
    var j :| j in m && Total(m) == m[j] + Total(m - {j});
    if j != k {
      OneLess(m, j);
      OneLess(m, k);
      TotalWithout(m - {j}, k);
      TotalWithout(m - {k}, j);
      assert m - {j} - {k} == m - {k} - {j};
    }
  }

  lemma TotalOfUpdate<K>(m: map<K, nat>, k: K, n: nat)
    ensures Total(Plus(m, k, n)) == Total(m) + n
  {
    var t := Plus(m, k, n);
    TotalWithout(t, k);
    if k in m {
      TotalWithout(m, k);
      assert t - {k} == m - {k};
    } else {
      assert t - {k} == m;
    }
  }

  /** A sum of ones. */
  lemma {:induction false} TotalOfOnes<K>(m: map<K, nat>)
    requires forall k | k in m :: m[k] == 1
    ensures Total(m) == |m|
    decreases |m|
  {
    if k :| k in m {
      TotalWithout(m, k);
      OneLess(m, k);
      TotalOfOnes(m - {k});
    }
  }
}
