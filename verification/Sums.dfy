/** Sums over the values of a finite map. */
module Sums {

  ghost function Total<K>(m: map<K, int>): int
    decreases |m.Keys|
  {
    if m.Keys == {} then 0
    else
      var k :| k in m.Keys;
      assert (m - {k}).Keys == m.Keys - {k};
      m[k] + Total(m - {k})
  }

  lemma {:induction false} TotalRemove<K>(m: map<K, int>, k: K)
    requires k in m
    ensures Total(m) == m[k] + Total(m - {k})
    decreases |m.Keys|
  {
    var c :| c in m.Keys && Total(m) == m[c] + Total(m - {c});
    assert (m - {c}).Keys == m.Keys - {c};
    assert (m - {k}).Keys == m.Keys - {k};
    if c != k {
      TotalRemove(m - {c}, k);
      TotalRemove(m - {k}, c);
      assert m - {c} - {k} == m - {k} - {c};
    }
  }

  lemma TotalUpdate<K>(m: map<K, int>, k: K, v: int)
    requires k in m
    ensures Total(m[k := v]) == Total(m) - m[k] + v
  {
    TotalRemove(m, k);
    TotalRemove(m[k := v], k);
    assert m[k := v] - {k} == m - {k};
  }

  lemma TotalPut<K>(m: map<K, int>, k: K, v: int)
    requires k !in m
    ensures Total(m[k := v]) == Total(m) + v
  {
    TotalRemove(m[k := v], k);
    assert m[k := v] - {k} == m;
  }

  lemma {:induction false} TotalZero<K>(m: map<K, int>)
    requires forall k :: k in m ==> m[k] == 0
    ensures Total(m) == 0
    decreases |m.Keys|
  {
    if m.Keys != {} {
      var k :| k in m.Keys && Total(m) == m[k] + Total(m - {k});
      assert (m - {k}).Keys == m.Keys - {k};
      TotalZero(m - {k});
    }
  }

  lemma {:induction false} TotalAdd<K>(a: map<K, int>, b: map<K, int>, c: map<K, int>)
    requires a.Keys == b.Keys == c.Keys && forall k :: k in c ==> c[k] == a[k] + b[k]
    ensures Total(c) == Total(a) + Total(b)
    decreases |c.Keys|
  {
    hide Total;
    if k :| k in c {
      TotalRemove(a, k);
      TotalRemove(b, k);
      TotalRemove(c, k);
      assert (a - {k}).Keys == (b - {k}).Keys == (c - {k}).Keys == c.Keys - {k};
      TotalAdd(a - {k}, b - {k}, c - {k});
    } else {
      TotalZero(a);
      TotalZero(b);
      TotalZero(c);
    }
  }

  /** Of two sums, term by term at most, the smaller equals the larger exactly when the terms do. */
  lemma {:induction false} TotalCompare<K>(a: map<K, int>, b: map<K, int>)
    requires a.Keys == b.Keys && forall k :: k in a ==> a[k] <= b[k]
    ensures Total(a) <= Total(b)
    ensures Total(a) == Total(b) <==> forall k :: k in a ==> a[k] == b[k]
    decreases |a.Keys|
  {
    hide Total;
    if k :| k in a {
      TotalRemove(a, k);
      TotalRemove(b, k);
      assert (a - {k}).Keys == (b - {k}).Keys == a.Keys - {k};
      TotalCompare(a - {k}, b - {k});
      assert forall l :: l in a <==> l == k || l in a - {k};
    } else {
      TotalZero(a);
      TotalZero(b);
    }
  }
}
