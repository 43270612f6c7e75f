/** Sums over the values of a map, whatever order they are taken in. */
module Sums {

  ghost function Sum(m: map<nat, real>): real
    decreases |m|
  {
    if m == map[] then 0.0
    else
      var k :| k in m;
      m[k] + Sum(m - {k})
  }

  /** Any key may be summed first. */
  lemma {:induction false} SumPick(m: map<nat, real>, k: nat)
    requires k in m
    ensures Sum(m) == m[k] + Sum(m - {k})
    decreases |m|
  {
    var c :| c in m && Sum(m) == m[c] + Sum(m - {c});
    if c != k {
      SumPick(m - {c}, k);
      SumPick(m - {k}, c);
      assert m - {c} - {k} == m - {k} - {c};
    }
  }

  lemma SumPut(m: map<nat, real>, k: nat, v: real)
    ensures Sum(m[k := v]) == Sum(m) + v - (if k in m then m[k] else 0.0)
  {
    SumPick(m[k := v], k);
    assert m[k := v] - {k} == m - {k};
    if k in m {
      SumPick(m, k);
    } else {
      assert m - {k} == m;
    }
  }

  /** Dropping entries that are zero changes nothing. */
  lemma {:induction false} SumDropsZeros(m: map<nat, real>, dead: set<nat>)
    requires forall k :: k in m && k in dead ==> m[k] == 0.0
    ensures Sum(m - dead) == Sum(m)
    decreases |dead|
  {
    if dead == {} {
      assert m - dead == m;
    } else {
      var k :| k in dead;
      var rest := dead - {k};
      SumDropsZeros(m, rest);
      var n := m - rest;
      assert n - {k} == m - dead;
      if k in n {
        SumPick(n, k);
      } else {
        assert n - {k} == n;
      }
    }
  }

  /** A sum built up one key at a time, from none left out to all. */
  lemma SumTakes(m: map<nat, real>, left: set<nat>, k: nat)
    requires k in left && k in m
    ensures Sum(m - (left - {k})) == Sum(m - left) + m[k]
  {
    var n := m - (left - {k});
    SumPick(n, k);
    assert n - {k} == m - left;
  }

  lemma SumOfNone(m: map<nat, real>)
    ensures Sum(m - m.Keys) == 0.0 && m - {} == m
  {
    assert m - m.Keys == map[];
  }

  lemma {:induction false} SumMonotone(m: map<nat, real>, n: map<nat, real>)
    requires m.Keys == n.Keys && forall k :: k in m ==> m[k] <= n[k]
    ensures Sum(m) <= Sum(n)
    decreases |m|
  {
    if m != map[] {
      var k :| k in m;
      SumPick(m, k);
      SumPick(n, k);
      SumMonotone(m - {k}, n - {k});
    } else {
      assert n == map[];
    }
  }

  lemma {:induction false} SumSplits(m: map<nat, real>, a: map<nat, real>, b: map<nat, real>)
    requires m.Keys == a.Keys == b.Keys && forall k :: k in m ==> m[k] == a[k] - b[k]
    ensures Sum(m) == Sum(a) - Sum(b)
    decreases |m|
  {
    if m != map[] {
      var k :| k in m;
      SumPick(m, k);
      SumPick(a, k);
      SumPick(b, k);
      SumSplits(m - {k}, a - {k}, b - {k});
    } else {
      assert a == map[] && b == map[];
    }
  }
}
