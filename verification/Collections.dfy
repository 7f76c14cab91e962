/** Stock shapes shared by the other modules. */
module Collections {
  datatype Option<T> = None | Some(value: T)

  lemma SomeMember<T>(s: set<T>) returns (x: T)
    requires s != {}
    ensures x in s
  {
    assert (forall y :: y !in s) ==> s == {};
    x :| x in s;
  }

  lemma SomeKey<K, V>(m: map<K, V>) returns (k: K)
    requires m != map[]
    ensures k in m
  {
    assert (forall h :: h !in m) ==> m == map[];
    k :| k in m;
  }
}
