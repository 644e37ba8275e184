/** The sum of the values of a finite map of counters, and how one increment changes it. */
module MapSum {

  /** A counter read with a default of 0, as `Hash.new(0)` reads a missing key. */
  function Get<K>(m: map<K, nat>, k: K): nat {
    if k in m then m[k] else 0
  }

  /** `m[k] += 1` on a `Hash.new(0)`. */
  function Increment<K>(m: map<K, nat>, k: K): (r: map<K, nat>)
    ensures r.Keys == m.Keys + {k}
    ensures r[k] == Get(m, k) + 1
    ensures forall j :: j in m && j != k ==> r[j] == m[j]
  {
    m[k := Get(m, k) + 1]
  }

  ghost function Sum<K>(m: map<K, nat>): nat
    decreases |m|
  {
    if m == map[] then 0
    else
      var k :| k in m;
      assert |(m - {k}).Keys| < |m.Keys| by {
        assert m.Keys == (m - {k}).Keys + {k};
      }
      m[k] + Sum(m - {k})
  }

  /** Any key can be taken out first: the sum does not depend on the order of the keys. */
  lemma SumRemove<K>(m: map<K, nat>, k: K)
    requires k in m
    ensures Sum(m) == m[k] + Sum(m - {k})
    decreases |m|
  {
    var j :| j in m && Sum(m) == m[j] + Sum(m - {j});
    if j != k {
      assert m.Keys == (m - {j}).Keys + {j};
      assert m.Keys == (m - {k}).Keys + {k};
      SumRemove(m - {j}, k);
      SumRemove(m - {k}, j);
      assert m - {j} - {k} == m - {k} - {j};
    }
  }

  /** One increment raises the sum by exactly one. */
  lemma SumIncrement<K>(m: map<K, nat>, k: K)
    ensures Sum(Increment(m, k)) == Sum(m) + 1
  {
    var r := Increment(m, k);
    SumRemove(r, k);
    if k in m {
      SumRemove(m, k);
      assert r - {k} == m - {k};
    } else {
      assert r - {k} == m;
    }
  }
}
