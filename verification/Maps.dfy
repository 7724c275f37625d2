/** A map after one key is added or dropped. */
module Maps {

  lemma PutTwice<K, T>(m: map<K, T>, t: K, x: T, y: T)
    ensures m[t := x][t := y] == m[t := y]
  {
  }

  lemma PutThenDropped<K, T>(m: map<K, T>, t: K, x: T)
    ensures m[t := x] - {t} == m - {t}
  {
  }

  lemma ValuesWithout<K, T>(m: map<K, T>, t: K)
    requires t in m && forall u, w :: u in m && w in m && u != w ==> m[u] != m[w]
    ensures (m - {t}).Values == m.Values - {m[t]}
  {
    forall x | x in m.Values - {m[t]}
      ensures x in (m - {t}).Values
    {
      var u :| u in m && m[u] == x;
      assert u in m - {t} && (m - {t})[u] == x;
    }
  }

  lemma ValuesWith<K, T>(m: map<K, T>, t: K, x: T)
    requires t !in m
    ensures m[t := x].Values == m.Values + {x}
  {
    forall y | y in m.Values
      ensures y in m[t := x].Values
    {
      var u :| u in m && m[u] == y;
      assert u in m[t := x] && m[t := x][u] == y;
    }
    assert m[t := x][t] == x;
  }
}
