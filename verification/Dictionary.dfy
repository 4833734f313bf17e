/** Walking a dictionary, whose keys come in no particular order. */
module Dictionary {
  import opened Digraph

  ghost function SetOf<T>(s: seq<T>): set<T> {
    set x | x in s
  }

  /** The dictionary's keys, each once, in some order. */
  method KeysInSomeOrder<K(==), V>(m: map<K, V>) returns (keys: seq<K>)
    ensures Distinct(keys) && SetOf(keys) == m.Keys
  {
    keys := [];
    var rest := m.Keys;
    while rest != {}
      invariant Distinct(keys) && SetOf(keys) !! rest && SetOf(keys) + rest == m.Keys
      decreases rest
    {
      var k :| k in rest;
      rest := rest - {k};
      keys := keys + [k];
    }
  }
}
