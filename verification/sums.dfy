/** Exact sums over the values of a finite map, used to state the
    conservation properties of the hour tables. */
module Sums {

  /** The value stored under `k`, or zero when `k` is absent: the reading
      a `defaultdict(float)` gives of a missing key. */
  function Get0<K>(m: map<K, real>, k: K): (r: real)
    ensures k in m ==> r == m[k]
    ensures k !in m ==> r == 0.0
  {
    if k in m then m[k] else 0.0
  }

  /** Some key of a non-empty map. */
  ghost function Pick<K>(m: map<K, real>): (k: K)
    requires |m| > 0
    ensures k in m
  {
    assert m.Keys != {};
    var k :| k in m; k
  }

  /** The sum of all values of `m`. */
  ghost function MapSum<K>(m: map<K, real>): real
    decreases |m|
  {
    if |m| == 0 then 0.0
    else m[Pick(m)] + MapSum(m - {Pick(m)})
  }

  /** The sum does not depend on which key is taken out first. */
  lemma {:induction false} MapSumRemove<K>(m: map<K, real>, k: K)
    requires k in m
    ensures MapSum(m) == m[k] + MapSum(m - {k})
    decreases |m|
  {
    assert m.Keys == (m - {k}).Keys + {k};
    var j := Pick(m);
    if j != k {
      var mj, mk := m - {j}, m - {k};
      assert k in mj && j in mk;
      MapSumRemove(mj, k);
      MapSumRemove(mk, j);
      assert mj - {k} == mk - {j};
    }
  }

  /** Adding a fresh key adds its value to the sum. */
  lemma MapSumInsert<K>(m: map<K, real>, k: K, v: real)
    requires k !in m
    ensures MapSum(m[k := v]) == MapSum(m) + v
  {
    MapSumRemove(m[k := v], k);
    assert m[k := v] - {k} == m;
  }

  /** Overwriting (or adding) one entry changes the sum by exactly the
      difference between the new and the old value. */
  lemma MapSumUpdate<K>(m: map<K, real>, k: K, v: real)
    ensures MapSum(m[k := v]) == MapSum(m) - Get0(m, k) + v
  {
    if k in m {
      var rest := m - {k};
      MapSumRemove(m, k);
      assert m[k := v] == rest[k := v];
      MapSumInsert(rest, k, v);
    } else {
      MapSumInsert(m, k, v);
    }
  }

  /** A non-empty map of strictly positive values has a strictly positive sum. */
  lemma {:induction false} MapSumPositive<K>(m: map<K, real>)
    requires |m| > 0
    requires forall k :: k in m ==> m[k] > 0.0
    ensures MapSum(m) > 0.0
    decreases |m|
  {
    var k := Pick(m);
    MapSumRemove(m, k);
    if |m - {k}| > 0 {
      MapSumPositive(m - {k});
    }
  }
}
