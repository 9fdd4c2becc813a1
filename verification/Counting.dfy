/** How many entries of a map satisfy a predicate, and how one update changes that. */
module Counting {
  ghost function Those<K, V>(m: map<K, V>, p: V -> bool): set<K> {
    set k | k in m && p(m[k])
  }

  ghost function Count<K, V>(m: map<K, V>, p: V -> bool): nat {
    |Those(m, p)|
  }

  function One(b: bool): nat {
    if b then 1 else 0
  }

  lemma CountUpdate<K, V>(m: map<K, V>, k: K, v: V, p: V -> bool)
    ensures Count(m[k := v], p) == Count(m, p) + One(p(v)) - One(k in m && p(m[k]))
  {
    var those := Those(m, p);
    assert Those(m[k := v], p) == if p(v) then those + {k} else those - {k};
  }

  lemma CountAtLeastOne<K, V>(m: map<K, V>, k: K, p: V -> bool)
    requires k in m && p(m[k])
    ensures Count(m, p) >= 1
  {
    assert k in Those(m, p);
  }

  lemma CountWithin<K, V>(m: map<K, V>, p: V -> bool)
    ensures Count(m, p) <= |m|
  {
    SubsetSize(Those(m, p), m.Keys);
  }

  lemma {:induction false} SubsetSize<K>(small: set<K>, big: set<K>)
    requires small <= big
    ensures |small| <= |big|
  {
    if k :| k in small {
      SubsetSize(small - {k}, big - {k});
    }
  }
}
