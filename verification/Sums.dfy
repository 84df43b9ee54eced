/** Sums over finite maps, and how single updates move them. */
module Sums {

  ghost function Pick<K>(m: map<K, int>): (k: K)
    requires m.Keys != {}
    ensures k in m
  {
    var k :| k in m.Keys;
    k
  }

  /** The sum of the values of a finite map. */
  ghost function Total<K>(m: map<K, int>): int
    decreases m.Keys
  {
    if m.Keys == {} then 0 else m[Pick(m)] + Total(m - {Pick(m)})
  }

  /** The order in which `Total` visits the keys does not matter. */
  lemma {:induction false} TotalRemove<K>(m: map<K, int>, k: K)
    requires k in m
    ensures Total(m) == m[k] + Total(m - {k})
    decreases m.Keys
  {
    var j := Pick(m);
    if j != k {
      TotalRemove(m - {j}, k);
      TotalRemove(m - {k}, j);
      assert m - {j} - {k} == m - {k} - {j};
    }
  }

  lemma TotalUpdate<K>(m: map<K, int>, k: K, v: int)
    ensures Total(m[k := v]) == Total(m) + v - (if k in m then m[k] else 0)
  {
    var m' := m[k := v];
    TotalRemove(m', k);
    if k in m {
      TotalRemove(m, k);
      assert m' - {k} == m - {k};
    } else {
      assert m' - {k} == m;
    }
  }

  lemma {:induction false} TotalNonNegative<K>(m: map<K, int>)
    requires forall k :: k in m ==> m[k] >= 0
    ensures Total(m) >= 0
    decreases m.Keys
  {
    if m.Keys != {} {
      TotalNonNegative(m - {Pick(m)});
    }
  }

  lemma {:induction false} TotalGrows<K>(m: map<K, int>, m': map<K, int>)
    requires forall k :: k in m ==> k in m' && m[k] <= m'[k]
    requires forall k :: k in m' ==> m'[k] >= 0
    ensures Total(m) <= Total(m')
    decreases m.Keys
  {
    if m.Keys == {} {
      TotalNonNegative(m');
    } else {
      var k := Pick(m);
      TotalRemove(m', k);
      TotalGrows(m - {k}, m' - {k});
    }
  }
}
