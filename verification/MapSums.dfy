/** Sums over finite maps and their grouping by a tag. */
module MapSums {

  ghost function Sum<K>(m: map<K, nat>): nat
    decreases |m|
  {
    if m == map[] then 0
    else
      var k :| k in m;
      assert (m - {k}).Keys == m.Keys - {k};
      m[k] + Sum(m - {k})
  }

  lemma {:induction false} SumWithout<K>(m: map<K, nat>, k: K)
    requires k in m
    ensures Sum(m) == m[k] + Sum(m - {k})
    decreases |m|
  {
    assert m != map[];
    var j :| j in m && Sum(m) == m[j] + Sum(m - {j});
    if j != k {
      assert (m - {j}).Keys == m.Keys - {j} && (m - {k}).Keys == m.Keys - {k};
      SumWithout(m - {j}, k);
      SumWithout(m - {k}, j);
      assert m - {j} - {k} == m - {k} - {j};
    }
  }

  lemma SumUpdate<K>(m: map<K, nat>, k: K, v: nat)
    ensures Sum(m[k := v]) == Sum(m) - (if k in m then m[k] else 0) + v
  {
    SumWithout(m[k := v], k);
    assert m[k := v] - {k} == m - {k};
    if k in m {
      SumWithout(m, k);
    } else {
      assert m - {k} == m;
    }
  }

  function Added<K>(m: map<K, nat>, k: K, n: nat): map<K, nat> {
    m[k := (if k in m then m[k] else 0) + n]
  }

  lemma SumAdded<K>(m: map<K, nat>, k: K, n: nat)
    ensures Sum(Added(m, k, n)) == Sum(m) + n
  {
    SumUpdate(m, k, (if k in m then m[k] else 0) + n);
  }

  /** The part of a map whose keys carry the tag. */
  ghost function Labelled<K, L>(m: map<K, nat>, tag: K -> L, l: L): map<K, nat> {
    map k | k in m && tag(k) == l :: m[k]
  }

  /** g groups m: it has the labels that occur, each with the sum of its part. */
  ghost predicate Groups<K, L(!new)>(g: map<L, nat>, m: map<K, nat>, tag: K -> L) {
    forall l: L :: (if l in g then g[l] else 0) == Sum(Labelled(m, tag, l))
  }

  lemma GroupsAdded<K, L(!new)>(g: map<L, nat>, m: map<K, nat>, tag: K -> L, k: K, n: nat)
    requires Groups(g, m, tag) && k !in m
    ensures Groups(Added(g, tag(k), n), m[k := n], tag)
  {
    forall l: L
      ensures (if l in Added(g, tag(k), n) then Added(g, tag(k), n)[l] else 0) == Sum(Labelled(m[k := n], tag, l))
    {
      if l == tag(k) {
        assert Labelled(m[k := n], tag, l) == Labelled(m, tag, l)[k := n];
        SumUpdate(Labelled(m, tag, l), k, n);
      } else {
        assert Labelled(m[k := n], tag, l) == Labelled(m, tag, l);
      }
    }
  }
}
