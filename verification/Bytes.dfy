/** Eight-bit arithmetic as the firmware's compiler does it, on unbounded integers. */
module Bytes {
  type byte = x: int | 0 <= x < 256
  type uint16 = x: int | 0 <= x < 0x1_0000

  /** The low eight bits of a two's complement number. */
  function LowByte(w: int): byte {
    w % 256
  }

  /** Bits 8 to 15 of a two's complement number (`/` rounds towards minus infinity here, as `>>` does). */
  function HighByte(w: int): byte {
    (w / 256) % 256
  }

  /** Bitwise or of two numbers. */
  function Or(a: nat, b: nat): nat {
    if a == 0 then b
    else if b == 0 then a
    else (if a % 2 == 1 || b % 2 == 1 then 1 else 0) + 2 * Or(a / 2, b / 2)
  }

  /** Bitwise exclusive or of two numbers. */
  function Xor(a: nat, b: nat): nat {
    if a == 0 then b
    else if b == 0 then a
    else (a % 2 + b % 2) % 2 + 2 * Xor(a / 2, b / 2)
  }

  /** `v >> n` */
  function Shr(v: nat, n: nat): nat {
    if n == 0 then v else Shr(v / 2, n - 1)
  }

  /** Bit `n` of a number. */
  predicate Bit(v: nat, n: nat) {
    Shr(v, n) % 2 == 1
  }

  function Pow2(n: nat): (p: nat)
    ensures p > 0
  {
    if n == 0 then 1 else 2 * Pow2(n - 1)
  }

  lemma ShrOnce(v: nat, n: nat)
    requires n > 0
    ensures Shr(v, n) == Shr(v, n - 1) / 2
  {
    if n > 1 {
      ShrOnce(v / 2, n - 1);
    }
  }

  lemma ShrToNothing(v: nat, n: nat)
    requires v < Pow2(n)
    ensures Shr(v, n) == 0
  {
  }

  /** A conversion to int16_t. */
  function ToInt16(v: int): int {
    (v + 0x8000) % 0x1_0000 - 0x8000
  }

  lemma FitsInt16(v: int)
    requires -0x8000 <= v < 0x8000
    ensures ToInt16(v) == v
  {
  }

  /** `now - then` on the 32-bit millisecond clock. */
  function Elapsed(now: nat, since: nat): nat {
    (now - since) % 0x1_0000_0000
  }

  /** `v << n` */
  function Shl(v: nat, n: nat): nat {
    if n == 0 then v else 2 * Shl(v, n - 1)
  }

  /** Below the lowest set bit of the other number, or adds. */
  lemma {:induction false} OrLow(low: nat, q: nat, k: nat)
    requires low < Pow2(k)
    ensures Or(low, Shl(q, k)) == low + Shl(q, k) && Or(Shl(q, k), low) == low + Shl(q, k)
    decreases k
  {
    if k > 0 {
      OrLow(low / 2, q, k - 1);
      Halves(low, Shl(q, k - 1));
    }
  }

  lemma Halves(low: nat, base: nat)
    ensures 2 * base / 2 == base && 2 * base % 2 == 0
    ensures low == 2 * (low / 2) + low % 2
  {
  }

  lemma Shifts(q: nat)
    ensures Shl(q, 2) == 4 * q && Shl(q, 3) == 8 * q && Shl(q, 4) == 16 * q
    ensures Pow2(2) == 4 && Pow2(3) == 8 && Pow2(4) == 16
  {
    assert Shl(q, 1) == 2 * q;
    assert Shl(q, 2) == 4 * q;
    assert Pow2(1) == 2;
    assert Pow2(2) == 4;
  }

  lemma HalfOfLow(v: nat, p: nat)
    requires p > 0
    ensures v % (2 * p) % 2 == v % 2 && v % (2 * p) / 2 == v / 2 % p
  {
    var q, r := v / 2 / p, v / 2 % p;
    assert v / 2 == p * q + r;
    assert v == 2 * p * q + (2 * r + v % 2);
    ModIs(v, 2 * p, q, 2 * r + v % 2);
  }

  lemma ModIs(v: nat, m: nat, q: nat, r: nat)
    requires m > 0 && v == m * q + r && r < m
    ensures v % m == r
  {
    var d := v / m - q;
    assert v == m * (v / m) + v % m;
    assert m * d == r - v % m;
    Multiples(m, d);
  }

  lemma Multiples(m: int, d: int)
    requires m > 0
    ensures d >= 1 ==> m * d >= m
    ensures d <= -1 ==> m * d <= -m
  {
  }

  lemma XorParts(a: nat, b: nat)
    ensures Xor(a, b) % 2 == (a % 2 + b % 2) % 2 && Xor(a, b) / 2 == Xor(a / 2, b / 2)
  {
    if a > 0 && b > 0 {
      var bit, x := (a % 2 + b % 2) % 2, Xor(a / 2, b / 2);
      assert Xor(a, b) == bit + 2 * x;
      hide Xor;
      BitAndHalf(bit, x);
    } else {
      assert Xor(a / 2, b / 2) == if a == 0 then b / 2 else a / 2;
      assert Xor(a, b) == if a == 0 then b else a;
      hide Xor;
    }
  }

  lemma BitAndHalf(bit: nat, x: nat)
    requires bit < 2
    ensures (bit + 2 * x) % 2 == bit && (bit + 2 * x) / 2 == x
  {
  }

  /** The low bits of an exclusive or are those of the low bits. */
  lemma {:induction false} XorLow(a: nat, c: nat, k: nat)
    requires c < Pow2(k)
    ensures Xor(a, c) % Pow2(k) == Xor(a % Pow2(k), c)
    decreases k
  {
    if k > 0 {
      var p := Pow2(k - 1);
      XorLow(a / 2, c / 2, k - 1);
      XorParts(a, c);
      HalfOfLow(a, p);
      HalfOfLow(Xor(a, c), p);
      XorParts(a % (2 * p), c);
      hide Xor;
      Halves(Xor(a, c) % (2 * p), 0);
      Halves(Xor(a % (2 * p), c), 0);
    }
  }
}
