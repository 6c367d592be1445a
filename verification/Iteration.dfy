/** Go iterates over a map in an arbitrary order. */
module Iteration {

  predicate Within<K(==), V>(order: seq<K>, m: map<K, V>) {
    forall i :: 0 <= i < |order| ==> order[i] in m
  }

  predicate NoRepeats<K(==)>(order: seq<K>) {
    forall i, j :: 0 <= i < j < |order| ==> order[i] != order[j]
  }

  /** An order in which the map may be iterated. */
  ghost predicate Ordering<K, V>(m: map<K, V>, order: seq<K>) {
    Within(order, m) && NoRepeats(order) && forall k <- m :: k in order
  }

  /** Some keys can be iterated after those already seen. */
  lemma {:induction false} SomeOrdering<K, V>(m: map<K, V>, seen: seq<K>, rest: set<K>)
    returns (order: seq<K>)
    requires Within(seen, m) && NoRepeats(seen) && rest <= m.Keys
    requires forall k <- m :: k in seen <==> k !in rest
    ensures Ordering(m, order) && seen <= order
    decreases rest
  {
    if rest == {} {
      order := seen;
    } else {
      var k :| k in rest;
      order := SomeOrdering(m, seen + [k], rest - {k});
      assert seen <= seen + [k];
    }
  }

  lemma NonEmptyOrder<K, V>(m: map<K, V>, order: seq<K>)
    requires m != map[] && Ordering(m, order)
    ensures order != []
  {
    assert m.Keys != {};
    var k :| k in m;
    assert k in order;
  }
}
