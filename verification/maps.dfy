/** Frame conditions on string-keyed maps, shared by browser storage and
    request headers. */
module Maps {

  /** `a` and `b` agree on every key outside `keys`: the same keys are
      present there, with the same values. */
  ghost predicate AgreeOutside<K(!new), V>(a: map<K, V>, b: map<K, V>, keys: set<K>)
  {
    forall k :: k !in keys ==> (k in a <==> k in b) && (k in a && k in b ==> a[k] == b[k])
  }
}
