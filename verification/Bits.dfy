/**
 Bit operations on unsigned integers, and the two ways the source rounds up to a power of two: bit smearing
 (pkg/queue/lockfree.go) and doubling in a loop (pkg/memory/pool.go).
 */
module Bits {
  import opened Division
  import opened QueueTypes

  const TWO_TO_THE_62: nat := 0x4000_0000_0000_0000
  const TWO_TO_THE_63: nat := 0x8000_0000_0000_0000

  function Pow2(k: nat): (p: nat)
    ensures p > 0
  {
    if k == 0 then 1 else 2 * Pow2(k - 1)
  }

  predicate IsPow2(p: nat) {
    exists k :: 0 <= k <= p && Pow2(k) == p
  }

  /** Go's x & y on unsigned integers. */
  function And(x: nat, y: nat): nat {
    if x == 0 || y == 0 then 0 else (if x % 2 == 1 && y % 2 == 1 then 1 else 0) + 2 * And(x / 2, y / 2)
  }

  /** Go's x | y on unsigned integers. */
  function Or(x: nat, y: nat): nat {
    if x == 0 then y
    else if y == 0 then x
    else (if x % 2 == 1 || y % 2 == 1 then 1 else 0) + 2 * Or(x / 2, y / 2)
  }

  /** Go's x >> k on unsigned integers. */
  function Shr(x: nat, k: nat): nat {
    if k == 0 then x else Shr(x / 2, k - 1)
  }

  /** Bit i of x. */
  predicate Bit(x: nat, i: nat) {
    if i == 0 then x % 2 == 1 else Bit(x / 2, i - 1)
  }

  lemma {:induction false} ZeroHasNoBits(i: nat)
    ensures !Bit(0, i)
  {
    if i > 0 { ZeroHasNoBits(i - 1); }
  }

  lemma {:induction false} BitOfOr(x: nat, y: nat, i: nat)
    ensures Bit(Or(x, y), i) == (Bit(x, i) || Bit(y, i))
  {
    if x == 0 || y == 0 {
      ZeroHasNoBits(i);
    } else if i > 0 {
      BitOfOr(x / 2, y / 2, i - 1);
      var o := Or(x / 2, y / 2);
      assert Or(x, y) == 2 * o || Or(x, y) == 2 * o + 1;
    }
  }

  lemma {:induction false} BitOfShr(x: nat, k: nat, i: nat)
    ensures Bit(Shr(x, k), i) == Bit(x, i + k)
  {
    if k > 0 {
      BitOfShr(x / 2, k - 1, i);
    }
  }

  /** A number is determined by its bits. */
  lemma {:induction false} SameBits(x: nat, y: nat)
    requires forall i: nat :: Bit(x, i) == Bit(y, i)
    ensures x == y
    decreases x + y
  {
    if x + y > 0 {
      forall i: nat ensures Bit(x / 2, i) == Bit(y / 2, i) {
        assert Bit(x, i + 1) == Bit(y, i + 1);
      }
      SameBits(x / 2, y / 2);
      assert Bit(x, 0) == Bit(y, 0);
    }
  }

  lemma {:induction false} BitsOfOnes(k: nat, i: nat)
    ensures Bit(Pow2(k) - 1, i) == (i < k)
  {
    if k == 0 {
      ZeroHasNoBits(i);
    } else if i > 0 {
      BitsOfOnes(k - 1, i - 1);
      assert (Pow2(k) - 1) / 2 == Pow2(k - 1) - 1;
    }
  }

  /** The top bit: x lies between 2^t and 2^(t+1). */
  lemma {:induction false} TopBit(x: nat, t: nat, i: nat)
    requires Pow2(t) <= x < Pow2(t + 1) && t <= i
    ensures Bit(x, i) == (i == t)
  {
    if t == 0 {
      if i > 0 { ZeroHasNoBits(i - 1); }
    } else {
      TopBit(x / 2, t - 1, i - 1);
    }
  }

  ghost predicate AnyBit(x: nat, lo: nat, hi: nat) {
    exists j :: lo <= j < hi && Bit(x, j)
  }

  /** Every bit of y looks `reach` places up in x. */
  ghost predicate Smeared(x: nat, y: nat, reach: nat) {
    forall i: nat :: Bit(y, i) <==> AnyBit(x, i, i + reach)
  }

  /** One smearing step reaches twice as far. */
  lemma SmearStep(x: nat, y: nat, reach: nat)
    requires Smeared(x, y, reach)
    ensures Smeared(x, Or(y, Shr(y, reach)), 2 * reach)
  {
    var z := Or(y, Shr(y, reach));
    forall i: nat ensures Bit(z, i) <==> AnyBit(x, i, i + 2 * reach) {
      BitOfOr(y, Shr(y, reach), i);
      BitOfShr(y, reach, i);
      assert Bit(y, i) <==> AnyBit(x, i, i + reach);
      assert Bit(y, i + reach) <==> AnyBit(x, i + reach, i + reach + reach);
    }
  }

  /** pkg/queue/lockfree.go, nextPowerOf2, on 64-bit unsigned integers. */
  method NextPowerOf2(n: nat) returns (r: nat)
    requires n < TWO_TO_THE_64
    ensures n == 0 ==> r == 1
    ensures 0 < n <= TWO_TO_THE_63 ==> IsPow2(r) && n <= r && (forall p: nat :: IsPow2(p) && n <= p ==> r <= p)
    ensures TWO_TO_THE_63 < n ==> r == 0
  {
    if n == 0 { return 1; }
    var m := n - 1;
    ghost var x := m;
    NotYetSmeared(x);
    SmearStep(x, m, 1);
    m := Or(m, Shr(m, 1));
    SmearStep(x, m, 2);
    m := Or(m, Shr(m, 2));
    SmearStep(x, m, 4);
    m := Or(m, Shr(m, 4));
    SmearStep(x, m, 8);
    m := Or(m, Shr(m, 8));
    SmearStep(x, m, 16);
    m := Or(m, Shr(m, 16));
    SmearStep(x, m, 32);
    m := Or(m, Shr(m, 32));
    SmearedRounds(n, m);
    r := (m + 1) % TWO_TO_THE_64;
  }

  lemma NotYetSmeared(x: nat)
    ensures Smeared(x, x, 1)
  {
  }

  lemma SmearedRounds(n: nat, m: nat)
    requires 0 < n < TWO_TO_THE_64 && Smeared(n - 1, m, 64)
    ensures var r := (m + 1) % TWO_TO_THE_64;
            && (n <= TWO_TO_THE_63 ==> IsPow2(r) && n <= r && (forall p: nat :: IsPow2(p) && n <= p ==> r <= p))
            && (TWO_TO_THE_63 < n ==> r == 0)
  {
    if n == 1 {
      NothingSmeared(m);
      assert Pow2(0) == 1;
    } else {
      var t := FindTop(n - 1);
      BelowSixtyFour(n - 1, t);
      AllOnesBelow(n - 1, m, t);
      Rounded(n, t);
      Range(n, t);
    }
  }

  lemma NothingSmeared(m: nat)
    requires Smeared(0, m, 64)
    ensures m == 0
  {
    forall i: nat ensures Bit(m, i) == Bit(0, i) {
      ZeroHasNoBits(i);
      assert Bit(m, i) <==> AnyBit(0, i, i + 64);
      if AnyBit(0, i, i + 64) {
        var j :| i <= j < i + 64 && Bit(0, j);
        ZeroHasNoBits(j);
      }
    }
    SameBits(m, 0);
  }

  lemma Sixteens()
    ensures Pow2(16) == 0x1_0000 && Pow2(32) == 0x1_0000_0000
    ensures Pow2(62) == TWO_TO_THE_62 && Pow2(63) == TWO_TO_THE_63 && Pow2(64) == TWO_TO_THE_64
  {
    assert Pow2(8) == 0x100;
    assert Pow2(16) == 0x1_0000;
    assert Pow2(24) == 0x100_0000;
    assert Pow2(32) == 0x1_0000_0000;
    assert Pow2(40) == 0x100_0000_0000;
    assert Pow2(48) == 0x1_0000_0000_0000;
    assert Pow2(56) == 0x100_0000_0000_0000;
    assert Pow2(62) == 0x4000_0000_0000_0000;
  }

  lemma {:induction false} FindTop(x: nat) returns (t: nat)
    requires 0 < x
    ensures Pow2(t) <= x < Pow2(t + 1)
  {
    if x == 1 {
      t := 0;
      assert Pow2(1) == 2 * Pow2(0);
    } else {
      t := FindTop(x / 2);
      t := t + 1;
    }
  }

  lemma AllOnesBelow(x: nat, m: nat, t: nat)
    requires Pow2(t) <= x < Pow2(t + 1) && t < 64 && Smeared(x, m, 64)
    ensures m == Pow2(t + 1) - 1
  {
    forall i: nat ensures Bit(m, i) == Bit(Pow2(t + 1) - 1, i) {
      BitsOfOnes(t + 1, i);
      assert Bit(m, i) <==> AnyBit(x, i, i + 64);
      if i <= t {
        TopBit(x, t, t);
      } else if AnyBit(x, i, i + 64) {
        var j :| i <= j < i + 64 && Bit(x, j);
        TopBit(x, t, j);
      }
    }
    SameBits(m, Pow2(t + 1) - 1);
  }

  lemma {:induction false} Pow2Monotone(j: nat, k: nat)
    requires j <= k
    ensures Pow2(j) <= Pow2(k)
    decreases k - j
  {
    if j < k { Pow2Monotone(j, k - 1); }
  }

  lemma {:induction false} Pow2Exceeds(k: nat)
    ensures k < Pow2(k)
  {
    if k > 0 { Pow2Exceeds(k - 1); }
  }

  /** With 2^t < n <= 2^(t+1), the least power of two from n on is 2^(t+1). */
  lemma Rounded(n: nat, t: nat)
    requires Pow2(t) < n <= Pow2(t + 1)
    ensures IsPow2(Pow2(t + 1))
    ensures forall p: nat :: IsPow2(p) && n <= p ==> Pow2(t + 1) <= p
  {
    Pow2Exceeds(t + 1);
    forall p: nat | IsPow2(p) && n <= p ensures Pow2(t + 1) <= p {
      var k :| 0 <= k <= p && Pow2(k) == p;
      if k <= t { Pow2Monotone(k, t); assert false; }
      Pow2Monotone(t + 1, k);
    }
  }

  lemma BelowSixtyFour(x: nat, t: nat)
    requires Pow2(t) <= x < TWO_TO_THE_64
    ensures t < 64
  {
    Sixteens();
    if t >= 64 { Pow2Monotone(64, t); }
  }

  lemma Range(n: nat, t: nat)
    requires Pow2(t) < n <= Pow2(t + 1) && t < 64
    ensures if n <= TWO_TO_THE_63 then Pow2(t + 1) < TWO_TO_THE_64 else Pow2(t + 1) == TWO_TO_THE_64
  {
    Sixteens();
    if t < 63 { Pow2Monotone(t + 1, 63); } else { assert t == 63; }
  }

  /** pkg/memory/pool.go, nextPowerOf2, on 64-bit signed integers. */
  method NextPowerOf2Loop(n: int) returns (r: int)
    requires n <= TWO_TO_THE_62
    ensures n <= 0 ==> r == 1
    ensures 0 < n ==> n <= r && IsPow2(r) && (forall p: nat :: IsPow2(p) && n <= p ==> r <= p)
  {
    if n <= 0 { return 1; }
    if And(n, n - 1) == 0 {
      PowerTest(n);
      return n;
    }
    Sixteens();
    var p := 1;
    ghost var k := 0;
    while p < n
      invariant p == Pow2(k) && k <= 62
      invariant k > 0 ==> Pow2(k - 1) < n
      decreases 62 - k
    {
      p := 2 * p;
      k := k + 1;
    }
    Rounded(n, k - 1);
    return p;
  }

  /** Conversion to a 64-bit signed integer. */
  function Int64(n: int): int {
    (n + TWO_TO_THE_63) % TWO_TO_THE_64 - TWO_TO_THE_63
  }

  /** The loop's p after k rounds. */
  function Doubled(k: nat): int {
    if k == 0 then 1 else Int64(2 * Doubled(k - 1))
  }

  /** The last power of two that the loop reaches. */
  const LAST: nat := 62

  lemma AtMostLast(k: nat)
    requires k <= LAST
    ensures Pow2(k) <= TWO_TO_THE_62
  {
    Sixteens();
    Pow2Monotone(k, LAST);
  }

  lemma {:induction false} DoubledFirst(k: nat)
    requires k <= LAST
    ensures Doubled(k) == Pow2(k)
  {
    if k > 0 {
      DoubledFirst(k - 1);
      AtMostLast(k);
    }
  }

  lemma {:induction false} DoubledThen(last: nat, k: nat)
    requires Doubled(last) == TWO_TO_THE_62 && k > last
    ensures Doubled(k) == if k == last + 1 then 0 - TWO_TO_THE_63 else 0
  {
    if k > last + 1 { DoubledThen(last, k - 1); }
  }

  /** The loop comes to an end exactly up to 2^62: beyond, p turns negative and then 0, and stays below n. */
  lemma LoopEndsExactly(n: int)
    requires 0 < n
    ensures (exists k :: 0 <= k && Doubled(k) >= n) <==> n <= TWO_TO_THE_62
  {
    assert Doubled(LAST) == TWO_TO_THE_62 by {
      Sixteens();
      DoubledFirst(LAST);
    }
    if n > TWO_TO_THE_62 {
      forall k | 0 <= k ensures Doubled(k) < n {
        if k <= LAST {
          DoubledFirst(k);
          AtMostLast(k);
        } else {
          DoubledThen(LAST, k);
        }
      }
    }
  }

  /** Between 2^63 and 2^64 there is no power of two. */
  lemma UpperHalf(n: nat)
    requires TWO_TO_THE_63 < n < TWO_TO_THE_64
    ensures !IsPow2(n)
  {
    Sixteens();
    Rounded(n, 63);
  }

  /** n & (n-1) == 0 exactly for the powers of two. */
  lemma {:induction false} PowerTest(n: nat)
    requires 0 < n
    ensures And(n, n - 1) == 0 <==> IsPow2(n)
  {
    if n == 1 {
      assert Pow2(0) == 1;
    } else if n % 2 == 1 {
      AndOdd(n);
    } else {
      PowerTest(n / 2);
      assert (n - 1) / 2 == n / 2 - 1;
      assert And(n, n - 1) == 2 * And(n / 2, n / 2 - 1);
      if IsPow2(n / 2) {
        var k :| 0 <= k <= n / 2 && Pow2(k) == n / 2;
        assert Pow2(k + 1) == n;
      }
      if k :| 0 <= k <= n && Pow2(k) == n {
        assert k > 0;
        Pow2Exceeds(k - 1);
        assert Pow2(k - 1) == n / 2;
      }
    }
  }

  lemma AndOdd(n: nat)
    requires n > 1 && n % 2 == 1
    ensures And(n, n - 1) > 0
  {
    assert (n - 1) / 2 == n / 2;
    AndSelf(n / 2);
  }

  lemma {:induction false} AndSelf(n: nat)
    ensures And(n, n) == n
  {
    if n > 0 { AndSelf(n / 2); }
  }

  lemma MaskStep(x: nat, c: nat, d: nat)
    requires 0 < c && 0 < x && d == 2 * c
    requires And(x / 2, c - 1) == x / 2 % c
    ensures And(x, d - 1) == x % d
  {
    var y := d - 1;
    assert y % 2 == 1 && y / 2 == c - 1;
    assert And(x, y) == x % 2 + 2 * And(x / 2, y / 2);
    HalvedRemainder(x, c, d);
  }

  /** Masking with a power of two less one is taking the remainder. */
  lemma {:induction false} MaskIsModulo(x: nat, k: nat)
    ensures And(x, Pow2(k) - 1) == x % Pow2(k)
  {
    var c := Pow2(k);
    if x == 0 {
      Remainder(c, 0, 0, 0);
    } else if k > 0 {
      MaskIsModulo(x / 2, k - 1);
      MaskStep(x, Pow2(k - 1), c);
    }
  }

  lemma HalvedRemainder(x: nat, c: nat, d: nat)
    requires 0 < c && d == 2 * c
    ensures x % d == 2 * (x / 2 % c) + x % 2
  {
    var h := x / 2;
    var q, r := h / c, h % c;
    assert h == q * c + r;
    DoubleProduct(q, c, d);
    Remainder(d, x, q, 2 * r + x % 2);
  }

  lemma DoubleProduct(q: int, c: int, d: int)
    requires d == 2 * c
    ensures q * d == 2 * (q * c)
  {
  }
}
