/**
 The CRC-32 of section 8 of RFC 1952, computed bit by bit (pkg/processor/processor.go, standardCRC32), and what it
 detects. A word is its 32 bits and a byte its 8 bits, lowest first.
 */
module Crc32 {
  import opened Folds

  type Word = w: seq<bool> | |w| == 32 witness Zeros(32)

  datatype Bits = Bits(bits: seq<bool>)

  type Octet = b: Bits | |b.bits| == 8 witness Bits(Zeros(8))

  type Bytes = seq<Octet>

  function Zeros(n: nat): (z: seq<bool>)
    ensures |z| == n && forall i :: 0 <= i < n ==> !z[i]
  {
    seq(n, _ => false)
  }

  function Zero(): Word {
    Zeros(32)
  }

  function Ones(): Word {
    seq(32, _ => true)
  }

  /** The four bits of a hexadecimal digit, lowest first. */
  function Hex(d: nat): (h: seq<bool>)
    ensures |h| == 4
  {
    [d % 2 == 1, d / 2 % 2 == 1, d / 4 % 2 == 1, d / 8 % 2 == 1]
  }

  /** 0xEDB88320. */
  function Polynomial(): (p: Word)
    ensures p[31]
  {
    Hex(0x0) + Hex(0x2) + Hex(0x3) + Hex(0x8) + Hex(0x8) + Hex(0xB) + Hex(0xD) + Hex(0xE)
  }

  /** x ^ y */
  function Xor(x: seq<bool>, y: seq<bool>): (z: seq<bool>)
    requires |x| == |y|
    ensures |z| == |x| && forall i :: 0 <= i < |z| ==> z[i] == (x[i] != y[i])
  {
    seq(|x|, i requires 0 <= i < |x| => x[i] != y[i])
  }

  function XorByte(x: Octet, y: Octet): Octet {
    Bits(Xor(x.bits, y.bits))
  }

  /** ^x */
  function Not(x: Word): (z: Word)
    ensures forall i :: 0 <= i < 32 ==> z[i] == !x[i]
  {
    seq(32, i requires 0 <= i < 32 => !x[i])
  }

  /** x >> 1 */
  function Shr(x: Word): Word {
    x[1..] + [false]
  }

  /** uint32(b) */
  function Widen(b: Octet): Word {
    b.bits + Zeros(24)
  }

  function BitStep(crc: Word): Word {
    if crc[0] then Xor(Shr(crc), Polynomial()) else Shr(crc)
  }

  function BitSteps(crc: Word, n: nat): Word
    decreases n
  {
    if n == 0 then crc else BitSteps(BitStep(crc), n - 1)
  }

  /** Bits in a byte. */
  const BYTE: nat := 8

  function ByteStep(crc: Word, b: Octet): Word {
    BitSteps(Xor(crc, Widen(b)), BYTE)
  }

  /** The register after reading data from the left. */
  function Register(crc: Word, data: Bytes): Word {
    Fold(ByteStep, crc, data)
  }

  function Checksum(data: Bytes): Word {
    Not(Register(Ones(), data))
  }

  method StandardCRC32(data: Bytes) returns (checksum: Word)
    ensures checksum == Checksum(data)
  {
    var crc: Word := Ones();
    for k := 0 to |data|
      invariant crc == Register(Ones(), data[..k])
    {
      FoldAt(ByteStep, Ones(), data, k);
      crc := FeedByte(crc, data[k]);
    }
    assert data[..|data|] == data;
    return Not(crc);
  }

  method FeedByte(start: Word, b: Octet) returns (crc: Word)
    ensures crc == ByteStep(start, b)
  {
    crc := ShiftOut(Xor(start, Widen(b)), BYTE);
  }

  /** The inner loop: n bits leave the register. */
  method ShiftOut(start: Word, n: nat) returns (crc: Word)
    ensures crc == BitSteps(start, n)
  {
    crc := start;
    for i := 0 to n
      invariant BitSteps(crc, n - i) == BitSteps(start, n)
    {
      if crc[0] {
        crc := Xor(Shr(crc), Polynomial());
      } else {
        crc := Shr(crc);
      }
    }
  }

  // ---------------------------------------------------------------------------------------------
  // The register is linear over xor, and each step can be undone

  lemma BitStepLinear(x: Word, y: Word)
    ensures BitStep(Xor(x, y)) == Xor(BitStep(x), BitStep(y))
  {
  }

  lemma BitStepKernel(x: Word)
    ensures BitStep(x) == Zero() <==> x == Zero()
  {
    if x[0] {
      assert BitStep(x)[31] == Polynomial()[31];
    } else {
      assert BitStep(x) == x[1..] + [x[0]];
      if BitStep(x) == Zero() {
        forall i | 0 <= i < 32 ensures !x[i] { assert i == 0 || x[i] == BitStep(x)[i - 1]; }
      }
    }
  }

  lemma {:induction false} BitStepsLinear(x: Word, y: Word, n: nat)
    ensures BitSteps(Xor(x, y), n) == Xor(BitSteps(x, n), BitSteps(y, n))
    decreases n
  {
    if n > 0 {
      BitStepLinear(x, y);
      BitStepsLinear(BitStep(x), BitStep(y), n - 1);
    }
  }

  lemma {:induction false} BitStepsKernel(x: Word, n: nat)
    ensures BitSteps(x, n) == Zero() <==> x == Zero()
    decreases n
  {
    if n > 0 {
      BitStepKernel(x);
      BitStepsKernel(BitStep(x), n - 1);
    }
  }

  /** A register whose low bits are clear just shifts. */
  lemma {:induction false} Shifts(x: Word, n: nat)
    requires n <= 32 && forall i :: 0 <= i < n ==> !x[i]
    ensures BitSteps(x, n) == x[n..] + Zeros(n)
    decreases n
  {
    if n > 0 {
      Shifts(Shr(x), n - 1);
      assert Shr(x)[n - 1..] + Zeros(n - 1) == x[n..] + Zeros(n);
    }
  }

  /** The table-driven byte step, one look-up per byte, computes the same register. */
  lemma TableStep(crc: Word, b: Octet)
    ensures ByteStep(crc, b) == Xor(BitSteps(Xor(crc[..8], b.bits) + Zeros(24), BYTE), crc[8..] + Zeros(8))
  {
    var low, high := Xor(crc[..8], b.bits) + Zeros(24), Zeros(8) + crc[8..];
    assert Xor(crc, Widen(b)) == Xor(low, high);
    BitStepsLinear(low, high, BYTE);
    Shifts(high, BYTE);
  }

  // ---------------------------------------------------------------------------------------------
  // Differences

  /** The bytewise difference of two payloads of the same length. */
  function Difference(a: Bytes, b: Bytes): (d: Bytes)
    requires |a| == |b|
    ensures |d| == |a|
  {
    seq(|a|, i requires 0 <= i < |a| => XorByte(a[i], b[i]))
  }

  lemma XorKernel(x: seq<bool>, y: seq<bool>)
    requires |x| == |y|
    ensures Xor(x, y) == Zeros(|x|) <==> x == y
  {
  }

  lemma WidenLinear(a: Octet, b: Octet)
    ensures Widen(XorByte(a, b)) == Xor(Widen(a), Widen(b))
  {
  }

  lemma XorExchange(x: Word, y: Word, u: Word, v: Word)
    ensures Xor(Xor(x, y), Xor(u, v)) == Xor(Xor(x, u), Xor(y, v))
  {
  }

  lemma ByteStepLinear(x: Word, y: Word, a: Octet, b: Octet)
    ensures ByteStep(Xor(x, y), XorByte(a, b)) == Xor(ByteStep(x, a), ByteStep(y, b))
  {
    WidenLinear(a, b);
    XorExchange(x, y, Widen(a), Widen(b));
    BitStepsLinear(Xor(x, Widen(a)), Xor(y, Widen(b)), BYTE);
  }

  lemma {:induction false} RegisterLinear(x: Word, y: Word, a: Bytes, b: Bytes)
    requires |a| == |b|
    ensures Register(Xor(x, y), Difference(a, b)) == Xor(Register(x, a), Register(y, b))
  {
    if a != [] {
      var k := |a| - 1;
      RegisterLinear(x, y, a[..k], b[..k]);
      assert Difference(a, b)[..k] == Difference(a[..k], b[..k]);
      ByteStepLinear(Register(x, a[..k]), Register(y, b[..k]), a[k], b[k]);
    }
  }

  lemma NotInjective(x: Word, y: Word)
    ensures Not(x) == Not(y) <==> x == y
  {
  }

  /** Two payloads of the same length collide exactly when the register reads their difference from zero to zero. */
  lemma CollisionExactly(a: Bytes, b: Bytes)
    requires |a| == |b|
    ensures Checksum(a) == Checksum(b) <==> Register(Zero(), Difference(a, b)) == Zero()
  {
    RegisterLinear(Ones(), Ones(), a, b);
    XorKernel(Ones(), Ones());
    XorKernel(Register(Ones(), a), Register(Ones(), b));
    NotInjective(Register(Ones(), a), Register(Ones(), b));
  }

  // ---------------------------------------------------------------------------------------------
  // Bit by bit

  /** One bit of data. */
  function Feed(crc: Word, bit: bool): Word {
    BitStep(Xor(crc, Pad([bit])))
  }

  /** Up to 32 bits, the first lowest, as a register. */
  function Pad(bits: seq<bool>): Word
    requires |bits| <= 32
  {
    bits + Zeros(32 - |bits|)
  }

  lemma {:induction false} BitStepsLast(x: Word, n: nat)
    ensures BitSteps(x, n + 1) == BitStep(BitSteps(x, n))
    decreases n
  {
    if n > 0 { BitStepsLast(BitStep(x), n - 1); }
  }

  /** A bit n places up. */
  function Up(bit: bool, n: nat): Word
    requires n < 32
  {
    Zeros(n) + [bit] + Zeros(31 - n)
  }

  lemma PadOneMore(x: Word, bits: seq<bool>, bit: bool)
    requires |bits| < 32
    ensures Xor(x, Pad(bits + [bit])) == Xor(Xor(x, Pad(bits)), Up(bit, |bits|))
  {
  }

  lemma UpShifts(bit: bool, n: nat)
    requires n < 32
    ensures BitSteps(Up(bit, n), n) == Pad([bit])
  {
    Shifts(Up(bit, n), n);
    assert Up(bit, n)[n..] + Zeros(n) == Pad([bit]);
  }

  /** A bit that waits n places up is lowest after n bit steps. */
  lemma ComesDown(x: Word, bits: seq<bool>, bit: bool)
    requires |bits| < 32
    ensures BitSteps(Xor(x, Pad(bits + [bit])), |bits|) == Xor(BitSteps(Xor(x, Pad(bits)), |bits|), Pad([bit]))
  {
    PadOneMore(x, bits, bit);
    BitStepsLinear(Xor(x, Pad(bits)), Up(bit, |bits|), |bits|);
    UpShifts(bit, |bits|);
  }

  /** Up to 32 bits fed one by one are as many bit steps of the register with the bits in place. */
  lemma {:induction false} FeedsPacked(x: Word, bits: seq<bool>)
    requires |bits| <= 32
    ensures Fold(Feed, x, bits) == BitSteps(Xor(x, Pad(bits)), |bits|)
  {
    if bits == [] {
      assert Xor(x, Pad([])) == x;
    } else {
      var n := |bits| - 1;
      FeedsPacked(x, bits[..n]);
      assert bits == bits[..n] + [bits[n]];
      ComesDown(x, bits[..n], bits[n]);
      BitStepsLast(Xor(x, Pad(bits)), n);
    }
  }

  lemma ByteFeeds(crc: Word, b: Octet)
    ensures ByteStep(crc, b) == Fold(Feed, crc, b.bits)
  {
    FeedsPacked(crc, b.bits);
  }

  /** All the bits of a payload, the lowest of each byte first. */
  function BitsIn(data: Bytes): (bits: seq<bool>)
    ensures |bits| == 8 * |data|
  {
    if data == [] then [] else BitsIn(data[..|data| - 1]) + data[|data| - 1].bits
  }

  lemma {:induction false} BitOf(data: Bytes, k: nat, i: nat)
    requires k < |data| && i < 8
    ensures BitsIn(data)[8 * k + i] == data[k].bits[i]
  {
    var n := |data| - 1;
    if k < n {
      BitOf(data[..n], k, i);
      assert data[..n][k] == data[k];
    }
  }

  /** The register reads a payload bit by bit. */
  lemma {:induction false} RegisterFeeds(crc: Word, data: Bytes)
    ensures Register(crc, data) == Fold(Feed, crc, BitsIn(data))
  {
    if data != [] {
      var n := |data| - 1;
      RegisterFeeds(crc, data[..n]);
      ByteFeeds(Register(crc, data[..n]), data[n]);
      FoldConcat(Feed, crc, BitsIn(data[..n]), data[n].bits);
    }
  }

  // ---------------------------------------------------------------------------------------------
  // Bursts

  /** Zeros keep a zero register at zero and any other away from zero. */
  lemma FeedZeros(crc: Word, zeros: seq<bool>)
    requires forall i :: 0 <= i < |zeros| ==> !zeros[i]
    ensures Fold(Feed, crc, zeros) == Zero() <==> crc == Zero()
  {
    forall x: Word ensures Feed(x, false) == Zero() <==> x == Zero() {
      assert Xor(x, Pad([false])) == x;
      BitStepKernel(x);
    }
    FoldKernel(Feed, crc, zeros, Zero(), false);
  }

  /** No burst of up to 32 bits that are not all zero takes a zero register to zero. */
  lemma ShortKernel(burst: seq<bool>)
    requires |burst| <= 32 && Fold(Feed, Zero(), burst) == Zero()
    ensures forall i :: 0 <= i < |burst| ==> !burst[i]
  {
    FeedsPacked(Zero(), burst);
    BitStepsKernel(Xor(Zero(), Pad(burst)), |burst|);
    forall i | 0 <= i < |burst| ensures !burst[i] {
      assert Xor(Zero(), Pad(burst))[i] == burst[i];
    }
  }

  lemma ThreeParts(before: seq<bool>, burst: seq<bool>, after: seq<bool>)
    requires forall i :: 0 <= i < |before| ==> !before[i]
    requires forall i :: 0 <= i < |after| ==> !after[i]
    ensures Fold(Feed, Zero(), before + burst + after) == Zero() <==> Fold(Feed, Zero(), burst) == Zero()
  {
    FoldConcat(Feed, Zero(), before + burst, after);
    FoldConcat(Feed, Zero(), before, burst);
    FeedZeros(Zero(), before);
    FeedZeros(Fold(Feed, Zero(), burst), after);
  }

  lemma OneInside(before: seq<bool>, burst: seq<bool>, after: seq<bool>, k: nat)
    requires |burst| <= 32 && k < |burst| && burst[k]
    requires forall i :: 0 <= i < |before| ==> !before[i]
    requires forall i :: 0 <= i < |after| ==> !after[i]
    ensures Fold(Feed, Zero(), before + burst + after) != Zero()
  {
    ThreeParts(before, burst, after);
    if Fold(Feed, Zero(), burst) == Zero() { ShortKernel(burst); }
  }

  /** A list of bits whose ones lie within 32 places of each other, and that has a one, is never read to zero. */
  lemma BurstShows(z: seq<bool>, from: nat, to: nat, at: nat)
    requires from <= at < to <= |z| && to <= from + 32 && z[at]
    requires forall i :: 0 <= i < |z| && !(from <= i < to) ==> !z[i]
    ensures Fold(Feed, Zero(), z) != Zero()
  {
    CutOut(z, from, to);
    OneInside(z[..from], z[from..to], z[to..], at - from);
  }

  lemma CutOut(z: seq<bool>, from: nat, to: nat)
    requires from <= to <= |z| && forall i :: 0 <= i < |z| && !(from <= i < to) ==> !z[i]
    ensures z[..from] + z[from..to] + z[to..] == z
    ensures forall i :: 0 <= i < from ==> !z[..from][i]
    ensures forall i :: 0 <= i < |z| - to ==> !z[to..][i]
  {
  }

  lemma {:induction false} BitsOfDifference(a: Bytes, b: Bytes)
    requires |a| == |b|
    ensures BitsIn(Difference(a, b)) == Xor(BitsIn(a), BitsIn(b))
  {
    if a != [] {
      var n := |a| - 1;
      BitsOfDifference(a[..n], b[..n]);
      assert Difference(a, b)[..n] == Difference(a[..n], b[..n]);
    }
  }

  lemma DifferentBits(a: Bytes, b: Bytes) returns (i: nat)
    requires |a| == |b| && a != b
    ensures i < |BitsIn(a)| && BitsIn(a)[i] != BitsIn(b)[i]
  {
    var k :| 0 <= k < |a| && a[k] != b[k];
    var j :| 0 <= j < 8 && a[k].bits[j] != b[k].bits[j];
    BitOf(a, k, j);
    BitOf(b, k, j);
    i := 8 * k + j;
  }

  /** Two different payloads whose bits agree outside 32 consecutive ones never have the same checksum. */
  lemma DetectsBitBursts(a: Bytes, b: Bytes, from: nat, to: nat)
    requires |a| == |b| && a != b && from <= to <= 8 * |a| && to <= from + 32
    requires forall i :: 0 <= i < 8 * |a| && !(from <= i < to) ==> BitsIn(a)[i] == BitsIn(b)[i]
    ensures Checksum(a) != Checksum(b)
  {
    var d := Difference(a, b);
    CollisionExactly(a, b);
    RegisterFeeds(Zero(), d);
    BitsOfDifference(a, b);
    var at := DifferentBits(a, b);
    BurstShows(BitsIn(d), from, to, at);
  }

  /** A one and then the polynomial: 33 bits that take a zero register to zero. */
  function Undetected(): (z: seq<bool>)
    ensures |z| == 40
  {
    [true] + Polynomial() + Zeros(7)
  }

  lemma UndetectedReadsZero()
    ensures Fold(Feed, Zero(), Undetected()) == Zero()
  {
    var p: Word := Polynomial();
    FoldConcat(Feed, Zero(), [true] + p, Zeros(7));
    FoldConcat(Feed, Zero(), [true], p);
    FeedsPacked(Zero(), [true]);
    assert Xor(Zero(), Pad([true])) == Pad([true]);
    assert Shr(Pad([true])) == Zero() && Xor(Zero(), p) == p;
    assert BitSteps(Pad([true]), 1) == BitStep(Pad([true])) == p;
    FeedsPacked(p, p);
    XorKernel(p, p);
    assert Pad(p) == p;
    BitStepsKernel(Zero(), 32);
    FeedZeros(Zero(), Zeros(7));
  }

  /** Forty bits as five bytes. */
  function FiveBytes(z: seq<bool>): (d: Bytes)
    requires |z| == 40
    ensures |d| == 5
  {
    [Bits(z[0..8]), Bits(z[8..16]), Bits(z[16..24]), Bits(z[24..32]), Bits(z[32..40])]
  }

  lemma BitsInFive(z: seq<bool>)
    requires |z| == 40
    ensures BitsIn(FiveBytes(z)) == z
  {
    var d := FiveBytes(z);
    forall i | 0 <= i < 40 ensures BitsIn(d)[i] == z[i] { BitOf(d, i / 8, i % 8); }
  }

  /** Two payloads whose bits differ only within 33 consecutive ones and that have the same checksum. */
  lemma LongerBurstEscapes() returns (a: Bytes, b: Bytes)
    ensures |a| == |b| == 5 && a != b && Checksum(a) == Checksum(b)
    ensures forall i :: 0 <= i < 40 && !(0 <= i < 33) ==> BitsIn(a)[i] == BitsIn(b)[i]
  {
    var z := Undetected();
    a, b := FiveBytes(z), FiveBytes(Zeros(40));
    BitsInFive(z);
    BitsInFive(Zeros(40));
    assert BitsIn(a)[0] && !BitsIn(b)[0];
    BitsOfDifference(a, b);
    assert Xor(z, Zeros(40)) == z;
    RegisterFeeds(Zero(), Difference(a, b));
    UndetectedReadsZero();
    CollisionExactly(a, b);
  }

  /** The payloads differ, but only within n consecutive bits. */
  ghost predicate DifferWithin(a: Bytes, b: Bytes, n: nat) {
    && |a| == |b| && a != b
    && exists from: nat, to: nat :: from <= to <= 8 * |a| && to <= from + n && AgreeOutside(a, b, from, to)
  }

  ghost predicate AgreeOutside(a: Bytes, b: Bytes, from: nat, to: nat)
    requires |a| == |b|
  {
    forall i :: 0 <= i < 8 * |a| && !(from <= i < to) ==> BitsIn(a)[i] == BitsIn(b)[i]
  }

  /** Every change within n consecutive bits changes the checksum exactly if n is at most 32. */
  lemma DetectsExactly(n: nat)
    ensures (forall a, b :: DifferWithin(a, b, n) ==> Checksum(a) != Checksum(b)) <==> n <= 32
  {
    if n <= 32 {
      forall a, b | DifferWithin(a, b, n) ensures Checksum(a) != Checksum(b) {
        var from: nat, to: nat :| from <= to <= 8 * |a| && to <= from + n && AgreeOutside(a, b, from, to);
        DetectsBitBursts(a, b, from, to);
      }
    } else {
      var a, b := LongerBurstEscapes();
      assert AgreeOutside(a, b, 0, 33);
      assert DifferWithin(a, b, n);
    }
  }

  lemma SameBytesSameBits(a: Bytes, b: Bytes, from: nat, to: nat, i: nat)
    requires |a| == |b| && from <= to && i < 8 * |a| && !(8 * from <= i < 8 * to)
    requires forall k :: 0 <= k < |a| && !(from <= k < to) ==> a[k] == b[k]
    ensures BitsIn(a)[i] == BitsIn(b)[i]
  {
    BitOf(a, i / 8, i % 8);
    BitOf(b, i / 8, i % 8);
  }

  /** In particular those that agree outside four consecutive bytes. */
  lemma DetectsBursts(a: Bytes, b: Bytes, from: nat, to: nat)
    requires |a| == |b| && from <= to <= |a| && to <= from + 4 && a != b
    requires forall i :: 0 <= i < |a| && !(from <= i < to) ==> a[i] == b[i]
    ensures Checksum(a) != Checksum(b)
  {
    forall i | 0 <= i < 8 * |a| && !(8 * from <= i < 8 * to) ensures BitsIn(a)[i] == BitsIn(b)[i] {
      SameBytesSameBits(a, b, from, to, i);
    }
    DetectsBitBursts(a, b, 8 * from, 8 * to);
  }
}
