/** Sums over the values of a map. */
module Sums {

  ghost function Total<K>(m: map<K, nat>): nat
    decreases |m|
  {
    if m == map[] then 0
    else
      var k :| k in m;
      m[k] + Total(m - {k})
  }

  lemma {:induction false} TotalWithout<K>(m: map<K, nat>, a: K)
    requires a in m
    ensures Total(m) == m[a] + Total(m - {a})
    decreases |m|
  {
    var b :| b in m && Total(m) == m[b] + Total(m - {b});
    if b != a {
      TotalWithout(m - {b}, a);
      TotalWithout(m - {a}, b);
      assert m - {b} - {a} == m - {a} - {b};
    }
  }

  lemma TotalWith<K>(m: map<K, nat>, a: K, n: nat)
    requires a !in m
    ensures Total(m[a := n]) == Total(m) + n
  {
    TotalWithout(m[a := n], a);
    assert m[a := n] - {a} == m;
  }

  /** One value changes. */
  lemma TotalSet<K>(m: map<K, nat>, a: K, n: nat)
    requires a in m
    ensures Total(m[a := n]) == Total(m) - m[a] + n
  {
    TotalWithout(m, a);
    TotalWithout(m[a := n], a);
    assert m[a := n] - {a} == m - {a};
  }

  lemma OneMore(n: nat, k: nat)
    ensures n * (k + 1) == n * k + n
  {
  }

  lemma {:induction false} TotalBound<K>(m: map<K, nat>, n: nat)
    requires forall k :: k in m ==> m[k] <= n
    ensures Total(m) <= n * |m|
    decreases |m|
  {
    if m != map[] {
      var k :| k in m;
      var rest := m - {k};
      assert m == rest[k := m[k]];
      TotalWithout(m, k);
      TotalBound(rest, n);
      OneMore(n, |rest|);
    }
  }
}
