/** Identities of sequences, sets and maps that do not come up by themselves. */
module CollectionFacts {
  lemma Assoc<T>(a: seq<T>, b: seq<T>, c: seq<T>)
    ensures a + (b + c) == a + b + c
  {
  }

  /** One element moves from what is left to what is done. */
  lemma MovedOver<T>(done: set<T>, rest: set<T>, x: T)
    requires done !! rest && x in rest
    ensures (done + {x}) + (rest - {x}) == done + rest && (done + {x}) !! (rest - {x})
  {
  }

  lemma Twice<T>(s: set<T>, a: set<T>, b: set<T>)
    ensures s - a - b == s - (a + b)
  {
  }

  lemma Thrice<T>(s: set<T>, a: set<T>, b: set<T>, c: set<T>)
    ensures s - a - b - c == s - (a + b + c)
  {
  }

  lemma TwiceMap<K, V>(m: map<K, V>, a: set<K>, b: set<K>)
    ensures m - a - b == m - (a + b)
  {
  }
}
