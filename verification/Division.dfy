/** Quotients and remainders by a variable. */
module Division {

  lemma {:induction false} ProductGap(a: int, b: int, n: nat)
    requires a < b
    ensures a * n + n <= b * n
    decreases b - a
  {
    assert b * n == (b - 1) * n + n;
    if a < b - 1 {
      ProductGap(a, b - 1, n);
    }
  }

  lemma RemaindersAgree(n: nat, q: int, r: nat, q': int, r': nat)
    requires r < n && r' < n
    requires q * n + r == q' * n + r'
    ensures q == q' && r == r'
  {
    if q < q' {
      ProductGap(q, q', n);
    } else if q' < q {
      ProductGap(q', q, n);
    }
  }

  lemma Remainder(n: nat, x: nat, q: int, r: nat)
    requires r < n && x == q * n + r
    ensures x % n == r
  {
    RemaindersAgree(n, q, r, x / n, x % n);
  }
}
