/** Sums over the values of a map, and over the numbers below a bound. */
module Sums {

  ghost function Sum<K, V>(m: map<K, V>, f: V -> nat): nat
    decreases |m|
  {
    if m == map[] then 0
    else
      var k :| k in m;
      f(m[k]) + Sum(m - {k}, f)
  }

  /** Any key may be taken out first. */
  lemma {:induction false} SumTake<K, V>(m: map<K, V>, k: K, f: V -> nat)
    requires k in m
    ensures Sum(m, f) == f(m[k]) + Sum(m - {k}, f)
    decreases |m|
  {
    var j :| j in m && Sum(m, f) == f(m[j]) + Sum(m - {j}, f);
    if j != k {
      SumTake(m - {j}, k, f);
      SumTake(m - {k}, j, f);
      assert m - {j} - {k} == m - {k} - {j};
    }
  }

  lemma SumUpdate<K, V>(m: map<K, V>, k: K, v: V, f: V -> nat)
    ensures Sum(m[k := v], f) + (if k in m then f(m[k]) else 0) == Sum(m, f) + f(v)
  {
    SumTake(m[k := v], k, f);
    if k in m {
      SumTake(m, k, f);
      assert m[k := v] - {k} == m - {k};
    } else {
      assert m[k := v] - {k} == m;
    }
  }

  lemma SumRemove<K, V>(m: map<K, V>, k: K, f: V -> nat)
    requires k in m
    ensures Sum(m - {k}, f) + f(m[k]) == Sum(m, f)
  {
    SumTake(m, k, f);
  }

  function Total(f: nat -> nat, k: nat): nat {
    if k == 0 then 0 else Total(f, k - 1) + f(k - 1)
  }

  lemma {:induction false} TotalAdds(f: nat -> nat, g: nat -> nat, h: nat -> nat, k: nat)
    requires forall j :: 0 <= j < k ==> f(j) == g(j) + h(j)
    ensures Total(f, k) == Total(g, k) + Total(h, k)
  {
    if k > 0 { TotalAdds(f, g, h, k - 1); }
  }

  lemma {:induction false} TotalSame(f: nat -> nat, g: nat -> nat, k: nat)
    requires forall j :: 0 <= j < k ==> f(j) == g(j)
    ensures Total(f, k) == Total(g, k)
  {
    if k > 0 { TotalSame(f, g, k - 1); }
  }

  lemma {:induction false} TotalNothing(f: nat -> nat, k: nat)
    requires forall j :: 0 <= j < k ==> f(j) == 0
    ensures Total(f, k) == 0
  {
    if k > 0 { TotalNothing(f, k - 1); }
  }

  lemma {:induction false} TotalSingle(f: nat -> nat, at: nat, k: nat)
    requires at < k && forall j :: 0 <= j < k && j != at ==> f(j) == 0
    ensures Total(f, k) == f(at)
  {
    if at < k - 1 {
      TotalSingle(f, at, k - 1);
    } else {
      TotalNothing(f, k - 1);
    }
  }
}
