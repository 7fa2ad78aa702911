/** Adding up the multisets held by the entries of a map. */
module MapSum {

  ghost function Sum<K, V>(m: map<K, multiset<V>>): multiset<V> {
    if m == map[] then multiset{} else
      var k :| k in m;
      m[k] + Sum(m - {k})
  }

  lemma SumEmpty<K, V>()
    ensures Sum<K, V>(map[]) == multiset{}
  {}

  /** The order of addition does not matter. */
  lemma {:induction false} SumPick<K, V>(m: map<K, multiset<V>>, k: K)
    requires k in m
    ensures Sum(m) == m[k] + Sum(m - {k})
    decreases |m|
  {
    var p :| p in m && Sum(m) == m[p] + Sum(m - {p});
    if p != k {
      SumPick(m - {p}, k);
      SumPick(m - {k}, p);
      assert m - {p} - {k} == m - {k} - {p};
    }
  }

  lemma SumAdd<K, V>(m: map<K, multiset<V>>, k: K, v: multiset<V>)
    requires k !in m
    ensures Sum(m[k := v]) == Sum(m) + v
  {
    SumPick(m[k := v], k);
    assert m[k := v] - {k} == m;
  }

  /** A map splits into the part on `keys` and the rest. */
  lemma {:induction false} SumSplit<K, V>(m: map<K, multiset<V>>, keys: set<K>)
    ensures Sum(m) == Sum(m - keys) + Sum(Restrict(m, keys))
    decreases |m|
  {
    hide Sum;
    if m == map[] {
      SumEmpty<K, V>();
      assert m - keys == map[] && Restrict(m, keys) == map[];
    } else {
      var k :| k in m;
      SumPick(m, k);
      SumSplit(m - {k}, keys);
      if k in keys {
        assert m - {k} - keys == m - keys;
        SumPick(Restrict(m, keys), k);
        assert Restrict(m - {k}, keys) == Restrict(m, keys) - {k};
      } else {
        SumPick(m - keys, k);
        assert m - {k} - keys == m - keys - {k};
        assert Restrict(m - {k}, keys) == Restrict(m, keys);
      }
    }
  }

  function Restrict<K, V>(m: map<K, V>, keys: set<K>): map<K, V> {
    map k | k in m && k in keys :: m[k]
  }
}
