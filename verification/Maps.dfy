/** Maps that differ in one entry, and updates in a row. */
module Maps {

  // The two maps agree except perhaps at `p`
  ghost predicate Agree<V>(v: map<nat, V>, w: map<nat, V>, p: nat) {
    forall q :: q != p ==> (q in v <==> q in w) && (q in v ==> w[q] == v[q])
  }

  lemma AgreePut<V>(v: map<nat, V>, w: map<nat, V>, p: nat)
    requires Agree(v, w, p)
    ensures p in w ==> w == v[p := w[p]]
    ensures p !in w ==> w == v - {p}
  {
  }

  lemma PutThenDrop<K, V>(m: map<K, V>, put: K, v: V, drop: K)
    requires put != drop
    ensures m[put := v] - {drop} == (m - {drop})[put := v]
  {
  }

  lemma PutTwice<K, V>(m: map<K, V>, k: K, v: V, w: V, drop: K)
    requires k != drop
    ensures (m[k := v] - {drop})[k := w] == (m - {drop})[k := w]
  {
  }

  lemma PutOver<K, V>(m: map<K, V>, k: K, v: V)
    ensures m[k := v] == (m - {k})[k := v]
  {
  }

  lemma PutTwiceAndDrop<K, V>(m: map<K, V>, put: K, v: V, w: V, drop: K)
    requires put != drop
    ensures m[put := v][put := w] - {drop} == (m - {drop})[put := w]
  {
  }
}
