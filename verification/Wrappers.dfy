/** Optional values, and maps compared key by key. */
module Wrappers {
  datatype Option<+T> = None | Some(value: T)

  // Two maps say the same about one key.
  ghost predicate Agree<K, V>(x: map<K, V>, y: map<K, V>, k: K) {
    (k in x <==> k in y) && (k in x && k in y ==> x[k] == y[k])
  }

  lemma SameMap<K(!new), V>(x: map<K, V>, y: map<K, V>)
    requires forall k :: Agree(x, y, k)
    ensures x == y
  {
    assert forall k :: k in x ==> Agree(x, y, k);
    assert forall k :: k in y ==> Agree(x, y, k);
  }
}
