// Fixed-width unsigned integers and the bitwise operators of the C++ source,
// written on unbounded integers so that the verifier reasons about them linearly.
module Bits {

  const TWO_TO_THE_64: nat := 0x1_0000_0000_0000_0000

  type uint8 = x: int | 0 <= x < 0x100
  type uint16 = x: int | 0 <= x < 0x1_0000
  type uint64 = x: int | 0 <= x < 0x1_0000_0000_0000_0000

  function Pow2(n: nat): (p: nat)
    ensures p >= 1
  {
    if n == 0 then 1 else 2 * Pow2(n - 1)
  }

  // x >> n
  function Shr(x: nat, n: nat): nat
    decreases n
  {
    if n == 0 then x else Shr(x / 2, n - 1)
  }

  // x << n, truncated to 64 bits
  function Shl(x: nat, n: nat): uint64 {
    (x * Pow2(n)) % TWO_TO_THE_64
  }

  // a | b
  function Or(a: nat, b: nat): nat
    decreases a + b
  {
    if a == 0 && b == 0 then 0
    else (if a % 2 == 1 || b % 2 == 1 then 1 else 0) + 2 * Or(a / 2, b / 2)
  }

  // a & b
  function And(a: nat, b: nat): nat {
    if a == 0 || b == 0 then 0
    else (if a % 2 == 1 && b % 2 == 1 then 1 else 0) + 2 * And(a / 2, b / 2)
  }

  lemma {:induction false} OrZero(a: nat)
    ensures Or(a, 0) == a
  {
    if a == 0 {
      assert Or(0, 0) == 0;
    } else {
      OrZero(a / 2);
    }
  }

  lemma {:induction false} OrSymmetric(a: nat, b: nat)
    ensures Or(a, b) == Or(b, a)
    decreases a + b
  {
    if a == 0 && b == 0 {
      assert Or(0, 0) == 0;
    } else {
      OrSymmetric(a / 2, b / 2);
    }
  }

  // A bitwise or of numbers without a common bit position is their sum.
  lemma {:induction false} OrDisjoint(a: nat, low: nat, n: nat)
    requires low < Pow2(n)
    ensures Or(a * Pow2(n), low) == a * Pow2(n) + low
  {
    if n == 0 {
      assert low == 0 && a * Pow2(0) == a;
      OrZero(a);
    } else {
      var half := a * Pow2(n - 1);
      assert a * Pow2(n) == 2 * half;
      OrDisjoint(a, low / 2, n - 1);
    }
  }

  // The low n bits of an or are the or of the low n bits.
  lemma {:induction false} OrMod(a: nat, b: nat, n: nat)
    ensures Or(a, b) % Pow2(n) == Or(a % Pow2(n), b % Pow2(n))
  {
    if n == 0 {
      assert Pow2(0) == 1;
    } else {
      var p := Pow2(n - 1);
      var x, y := a % (2 * p), b % (2 * p);
      ModHalf(a, p);
      ModHalf(b, p);
      ModHalf(Or(a, b), p);
      OrHalf(a, b);
      OrHalf(x, y);
      OrMod(a / 2, b / 2, n - 1);
    }
  }

  lemma OrHalf(a: nat, b: nat)
    ensures Or(a, b) / 2 == Or(a / 2, b / 2)
    ensures Or(a, b) % 2 == if a % 2 == 1 || b % 2 == 1 then 1 else 0
  {
  }

  // Shifting an or to the right is the or of the shifted operands.
  lemma {:induction false} ShrOr(a: nat, b: nat, n: nat)
    ensures Shr(Or(a, b), n) == Or(Shr(a, n), Shr(b, n))
    decreases n
  {
    if n == 0 {
      assert Shr(Or(a, b), 0) == Or(a, b);
    } else {
      OrHalf(a, b);
      hide Or;
      ShrOr(a / 2, b / 2, n - 1);
    }
  }

  lemma ModHalf(a: nat, p: nat)
    requires p >= 1
    ensures a % (2 * p) % 2 == a % 2
    ensures a % (2 * p) / 2 == a / 2 % p
  {
    var q, r := a / 2 / p, a / 2 % p;
    assert a / 2 == p * q + r;
    assert a == (2 * p) * q + (2 * r + a % 2);
    DivModUnique(a, 2 * p, q, 2 * r + a % 2);
  }

  lemma DivModUnique(a: nat, d: nat, q: nat, r: nat)
    requires d >= 1 && r < d && a == d * q + r
    ensures a / d == q && a % d == r
  {
    var q', r' := a / d, a % d;
    assert a == d * q' + r';
    MulStep(d, q, q');
    MulStep(d, q', q);
  }

  lemma MulStep(d: nat, x: int, y: int)
    ensures x < y ==> d * y >= d * x + d
  {
    if x < y {
      var k: nat := y - x - 1;
      assert d * k >= 0;
      assert d * y == d * (x + 1 + k) == d * x + d + d * k;
    }
  }

  lemma {:induction false} OrBound(a: nat, b: nat, n: nat)
    requires a < Pow2(n) && b < Pow2(n)
    ensures Or(a, b) < Pow2(n)
  {
    if n == 0 {
      assert a == b == 0;
    } else {
      OrBound(a / 2, b / 2, n - 1);
    }
  }

  // Masking with n one bits is taking the remainder modulo 2^n.
  lemma {:induction false} AndMask(x: nat, n: nat, mask: nat)
    requires mask + 1 == Pow2(n)
    ensures And(x, mask) == x % Pow2(n)
  {
    if n == 0 {
      assert mask == 0;
    } else {
      var p := Pow2(n - 1);
      ModHalf(x, p);
      AndHalf(x, mask);
      AndMask(x / 2, n - 1, mask / 2);
    }
  }

  lemma AndHalf(a: nat, b: nat)
    ensures And(a, b) / 2 == And(a / 2, b / 2)
    ensures And(a, b) % 2 == if a % 2 == 1 && b % 2 == 1 then 1 else 0
  {
  }

  // Setting a clear bit adds its value.
  lemma {:induction false} SetBit(a: nat, n: nat, bit: nat)
    requires bit == Pow2(n) && a % (2 * bit) < bit
    ensures Or(a, bit) == a + bit
  {
    if n == 0 {
      OrZero(a / 2);
    } else {
      ModHalf(a, bit);
      OrHalf(a, bit);
      SetBit(a / 2, n - 1, bit / 2);
    }
  }

  lemma Pow2Values()
    ensures Pow2(0) == 1 && Pow2(1) == 2 && Pow2(8) == 0x100 && Pow2(9) == 0x200 && Pow2(10) == 0x400
    ensures Pow2(12) == 0x1000 && Pow2(16) == 0x1_0000
  {
  }

  lemma Pow2Values64()
    ensures Pow2(32) == 0x1_0000_0000 && Pow2(60) == 0x1000_0000_0000_0000 && Pow2(64) == TWO_TO_THE_64
  {
    Pow2Values();
    Pow2Add(16, 16);
    Pow2Add(32, 16);
    Pow2Add(48, 12);
    Pow2Add(48, 16);
  }

  lemma {:induction false} Pow2Add(m: nat, n: nat)
    ensures Pow2(m + n) == Pow2(m) * Pow2(n)
  {
    if n == 0 {
      assert Pow2(0) == 1;
    } else {
      Pow2Add(m, n - 1);
      assert Pow2(m + n) == 2 * (Pow2(m) * Pow2(n - 1));
    }
  }

  // The alignment test of the memory primitives: both operands are multiples of eight.
  lemma BothAligned(a: nat, b: nat)
    ensures And(Or(a, b), 7) == 0 <==> a % 8 == 0 && b % 8 == 0
  {
    assert Pow2(3) == 8;
    AndMask(Or(a, b), 3, 7);
    OrMod(a, b, 3);
    if Or(a % 8, b % 8) == 0 { OrIsZero(a % 8, b % 8); }
  }

  lemma {:induction false} OrIsZero(a: nat, b: nat)
    requires Or(a, b) == 0
    ensures a == 0 && b == 0
    decreases a + b
  {
    if a == 0 && b == 0 {
      // nothing to show
    } else {
      OrIsZero(a / 2, b / 2);
    }
  }
}
