/** Totals over the values of a map, and counters kept in a map. */
module MapSums {

  ghost function Sum<K>(m: map<K, nat>): nat
    decreases |m|
  {
    if m.Keys == {} then 0
    else
      var k :| k in m.Keys;
      assert (m - {k}).Keys == m.Keys - {k};
      m[k] + Sum(m - {k})
  }

  lemma RemoveSmaller<K>(m: map<K, nat>, k: K)
    requires k in m
    ensures |m - {k}| < |m|
  {
    assert (m - {k}).Keys == m.Keys - {k};
  }

  /** The total does not depend on which key is taken out first. */
  lemma {:induction false} SumRemove<K>(m: map<K, nat>, k: K)
    requires k in m
    ensures Sum(m) == m[k] + Sum(m - {k})
    decreases |m|
  {
    var j :| j in m.Keys && Sum(m) == m[j] + Sum(m - {j});
    if j != k {
      RemoveSmaller(m, j);
      RemoveSmaller(m, k);
      SumRemove(m - {j}, k);
      SumRemove(m - {k}, j);
      assert m - {j} - {k} == m - {k} - {j};
    }
  }

  lemma SumUpdate<K>(m: map<K, nat>, k: K, v: nat)
    ensures Sum(m[k := v]) == Sum(m) + v - (if k in m then m[k] else 0)
  {
    SumRemove(m[k := v], k);
    if k in m {
      SumRemove(m, k);
      assert m[k := v] - {k} == m - {k};
    } else {
      assert m[k := v] - {k} == m;
    }
  }

  lemma SumOfNone<K>(m: map<K, nat>)
    requires m.Keys == {}
    ensures Sum(m) == 0
  {
  }

  lemma UnionUpdate<K>(a: map<K, nat>, b: map<K, nat>, k: K)
    requires k in b && k !in a
    ensures a + b == (a + (b - {k}))[k := b[k]] && k !in a + (b - {k})
  {
  }

  lemma SumUnionStep<K>(a: map<K, nat>, b: map<K, nat>, k: K)
    requires k in b && k !in a
    ensures Sum(a + b) == Sum(a + (b - {k})) + b[k] && Sum(b) == Sum(b - {k}) + b[k]
  {
    SumRemove(b, k);
    UnionUpdate(a, b, k);
    SumUpdate(a + (b - {k}), k, b[k]);
  }

  /** Maps without a common key add up. */
  lemma {:induction false} SumUnion<K>(a: map<K, nat>, b: map<K, nat>)
    requires a.Keys !! b.Keys
    ensures Sum(a + b) == Sum(a) + Sum(b)
    decreases |b|
  {
    if b.Keys == {} {
      SumOfNone(b);
      assert a + b == a;
    } else {
      var k :| k in b.Keys;
      RemoveSmaller(b, k);
      SumUnion(a, b - {k});
      SumUnionStep(a, b, k);
    }
  }

  /** Two different keys together account for no more than the total. */
  lemma SumAtLeastTwo<K>(m: map<K, nat>, j: K, k: K)
    requires j in m && k in m && j != k
    ensures m[j] + m[k] <= Sum(m)
  {
    SumRemove(m, j);
    SumRemove(m - {j}, k);
  }

  /** Entry-wise differences add up to the difference of the totals. */
  lemma {:induction false} SumDifference<K>(a: map<K, nat>, b: map<K, nat>, d: map<K, nat>)
    requires a.Keys == b.Keys == d.Keys && forall k :: k in a ==> a[k] == b[k] + d[k]
    ensures Sum(a) == Sum(b) + Sum(d)
    decreases |a|
  {
    if a.Keys != {} {
      var k :| k in a.Keys;
      SumRemove(a, k);
      SumRemove(b, k);
      SumRemove(d, k);
      RemoveSmaller(a, k);
      SumDifference(a - {k}, b - {k}, d - {k});
    }
  }

  /** Entries that are nowhere larger and somewhere smaller have the smaller total. */
  lemma SumLess<K>(a: map<K, nat>, b: map<K, nat>, k: K)
    requires a.Keys == b.Keys && (forall j :: j in a ==> a[j] <= b[j]) && k in a && a[k] < b[k]
    ensures Sum(a) < Sum(b)
  {
    var d: map<K, nat> := map j | j in a :: b[j] - a[j];
    SumDifference(b, a, d);
    SumRemove(d, k);
  }

  /** The counter map with n added at k; a missing counter starts at zero. */
  function Bump<K>(m: map<K, nat>, k: K, n: nat): (r: map<K, nat>)
    ensures r.Keys == m.Keys + {k}
  {
    m[k := (if k in m then m[k] else 0) + n]
  }

  lemma SumBump<K>(m: map<K, nat>, k: K, n: nat)
    ensures Sum(Bump(m, k, n)) == Sum(m) + n
  {
    SumUpdate(m, k, (if k in m then m[k] else 0) + n);
  }

  function Get<K>(m: map<K, nat>, k: K): nat
  {
    if k in m then m[k] else 0
  }
}
