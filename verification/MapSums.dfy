/** Totals over finite maps: the arithmetic behind byte accounting. */
module MapSums {

  ghost function Sum<K>(m: map<K, nat>): nat
    decreases |m|
  {
    if m == map[] then 0
    else
      var k :| k in m;
      m[k] + Sum(m - {k})
  }

  /** The total does not depend on which key is taken out first. */
  lemma {:induction false} SumWithout<K>(m: map<K, nat>, k: K)
    requires k in m
    ensures Sum(m) == m[k] + Sum(m - {k})
    decreases |m|
  {
    var first :| first in m && Sum(m) == m[first] + Sum(m - {first});
    if first != k {
      var rest := m - {first};
      SumWithout(rest, k);
      assert rest - {k} == (m - {k}) - {first};
      SumWithout(m - {k}, first);
    }
  }

  /** Storing a value replaces the old contribution of its key. */
  lemma SumPut<K>(m: map<K, nat>, k: K, v: nat)
    ensures Sum(m[k := v]) == Sum(m - {k}) + v
    ensures k in m ==> Sum(m[k := v]) == Sum(m) - m[k] + v
    ensures k !in m ==> Sum(m[k := v]) == Sum(m) + v
  {
    SumWithout(m[k := v], k);
    assert m[k := v] - {k} == m - {k};
    if k in m {
      SumWithout(m, k);
    } else {
      assert m - {k} == m;
    }
  }

  lemma {:induction false} SumOfPart<K>(part: map<K, nat>, whole: map<K, nat>)
    requires part.Keys <= whole.Keys
    requires forall k | k in part :: part[k] <= whole[k]
    ensures Sum(part) <= Sum(whole)
    decreases |part|
  {
    if part != map[] {
      var k :| k in part;
      SumWithout(part, k);
      SumWithout(whole, k);
      SumOfPart(part - {k}, whole - {k});
    }
  }
}
