/** The multiset of the values of a finite map, for stating "one element per key". */
module Bags {

  /** Some key of a non-empty map. */
  ghost function Pick<V>(m: map<string, V>): (k: string)
    requires m != map[]
    ensures k in m
  {
    var k :| k in m; k
  }

  ghost function Bag<V>(m: map<string, V>): multiset<V>
    decreases m.Keys
  {
    if m == map[] then multiset{}
    else multiset{m[Pick(m)]} + Bag(m - {Pick(m)})
  }

  /** The bag does not depend on which key the definition happens to pick first. */
  lemma {:induction false} BagRemove<V>(m: map<string, V>, k: string)
    requires k in m
    ensures Bag(m) == multiset{m[k]} + Bag(m - {k})
    decreases m.Keys
  {
    var j := Pick(m);
    if j != k {
      var mj, mk := m - {j}, m - {k};
      var both := mj - {k};
      assert mj.Keys < m.Keys && mk.Keys < m.Keys;
      assert both == mk - {j};
      assert Bag(m) == multiset{m[j]} + Bag(mj);
      BagRemove(mj, k);
      assert Bag(mj) == multiset{m[k]} + Bag(both);
      BagRemove(mk, j);
      assert Bag(mk) == multiset{m[j]} + Bag(both);
    }
  }

  lemma BagAdd<V>(m: map<string, V>, k: string, v: V)
    requires k !in m
    ensures Bag(m[k := v]) == Bag(m) + multiset{v}
  {
    BagRemove(m[k := v], k);
    assert m[k := v] - {k} == m;
  }

  lemma {:induction false} BagSize<V>(m: map<string, V>)
    ensures |Bag(m)| == |m|
    decreases m.Keys
  {
    if m != map[] {
      var k := Pick(m);
      BagSize(m - {k});
      assert (m - {k}).Keys == m.Keys - {k};
    }
  }

  lemma {:induction false} BagHas<V>(m: map<string, V>, v: V)
    ensures v in Bag(m) <==> exists k :: k in m && m[k] == v
    decreases m.Keys
  {
    if m != map[] {
      var k := Pick(m);
      var rest := m - {k};
      BagHas(rest, v);
      if v in Bag(m) {
        if v == m[k] {
          assert k in m && m[k] == v;
        } else {
          assert v in Bag(rest);
          var j :| j in rest && rest[j] == v;
          assert j in m && m[j] == v;
        }
      } else {
        forall j | j in m
          ensures m[j] != v
        {
          if j != k {
            assert j in rest && rest[j] == m[j];
          }
        }
      }
    }
  }

  /** A value stored under exactly one key occurs once in the bag. */
  lemma BagOnce<V>(m: map<string, V>, k: string)
    requires k in m
    requires forall j :: j in m && j != k ==> m[j] != m[k]
    ensures Bag(m)[m[k]] == 1
  {
    BagRemove(m, k);
    BagHas(m - {k}, m[k]);
  }
}
