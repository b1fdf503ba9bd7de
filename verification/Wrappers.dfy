module Wrappers {
  datatype Option<+T> = None | Some(value: T)

  /** Two maps are equal when they agree key by key. */
  lemma SameMap<K, V>(a: map<K, V>, b: map<K, V>)
    requires a.Keys == b.Keys && forall k :: k in a.Keys ==> a[k] == b[k]
    ensures a == b
  {
    assert forall k :: k in a <==> k in a.Keys;
    assert forall k :: k in b <==> k in b.Keys;
  }
}
