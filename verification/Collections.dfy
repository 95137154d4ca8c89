/** Facts about maps, sets and sequences that several modules use. */
module Collections {
  function Without<K, V>(m: map<K, V>, key: K): (r: map<K, V>)
    ensures key !in r
  {
    m - {key}
  }

  lemma OneLess<K, V>(m: map<K, V>, key: K)
    ensures |Without(m, key)| == |m| - if key in m then 1 else 0
  {
    assert key in m ==> m.Keys == Without(m, key).Keys + {key};
    assert key !in m ==> Without(m, key) == m;
  }

  lemma NotThere<K, V>(m: map<K, V>, key: K)
    ensures key !in m ==> Without(m, key) == m
  {
  }

  function RemoveAt<T>(s: seq<T>, i: nat): seq<T>
    requires i < |s|
  {
    s[..i] + s[i + 1..]
  }

  lemma SubsetSize<T>(a: set<T>, b: set<T>)
    requires a <= b
    ensures |a| <= |b|
  {
    assert b == a + (b - a);
  }
}
