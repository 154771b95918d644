/** Bitwise operations on unsigned numbers, powers of two, and what masks do to numbers. */
module Bits {

  /** Bitwise conjunction. */
  function And(x: nat, y: nat): nat {
    if x == 0 || y == 0 then 0 else 2 * And(x / 2, y / 2) + x % 2 * (y % 2)
  }

  /** Bitwise disjunction. */
  function Or(x: nat, y: nat): nat {
    if x == 0 then y else if y == 0 then x
    else 2 * Or(x / 2, y / 2) + if x % 2 == 1 || y % 2 == 1 then 1 else 0
  }

  /** Bitwise exclusive disjunction. */
  function Xor(x: nat, y: nat): nat {
    if x == 0 then y else if y == 0 then x
    else 2 * Xor(x / 2, y / 2) + if x % 2 != y % 2 then 1 else 0
  }

  /** Whether the `k`-th bit of a number is set. */
  predicate BitSet(v: nat, k: nat) {
    if k == 0 then v % 2 == 1 else BitSet(v / 2, k - 1)
  }

  function Pow2(k: nat): (p: nat)
    ensures p == 1 || (p > 1 && p % 2 == 0)
  {
    if k == 0 then 1 else 2 * Pow2(k - 1)
  }

  // ----- Products and remainders -----

  lemma NotNegative(a: nat, b: nat)
    ensures a * b >= 0
  {
  }

  lemma MultipleIsFar(e: int, d: nat)
    requires e != 0
    ensures e * d >= d || e * d <= -(d as int)
  {
    if e > 0 {
      NotNegative(e - 1, d);
      assert e * d == d + (e - 1) * d;
    } else {
      NotNegative(-e - 1, d);
      assert (-e) * d == d + (-e - 1) * d;
    }
  }

  lemma Quotient(v: nat, d: nat)
    requires d > 0
    ensures v == v / d * d + v % d
  {
  }

  lemma Minus(a: int, b: int, d: nat)
    ensures (a - b) * d == a * d - b * d
  {
  }

  lemma RemainderIs(v: nat, d: nat, q: nat, m: nat)
    requires d > 0 && v == q * d + m && m < d
    ensures v % d == m && v / d == q
  {
    Quotient(v, d);
    Minus(v / d, q, d);
    if v / d != q {
      MultipleIsFar(v / d - q, d);
    }
  }

  lemma Associates(a: nat, b: nat, c: nat)
    ensures a * (b * c) == a * b * c
  {
  }

  lemma Small(v: nat, d: nat)
    requires v < d
    ensures v % d == v
  {
  }

  lemma LowStep(v: nat, p: nat)
    requires p > 0
    ensures v % (2 * p) == 2 * (v / 2 % p) + v % 2
  {
    Quotient(v / 2, p);
    Associates(2, v / 2 / p, p);
    Associates(v / 2 / p, 2, p);
    RemainderIs(v, 2 * p, v / 2 / p, 2 * (v / 2 % p) + v % 2);
  }

  // ----- Bit by bit -----

  lemma Halves(v: nat)
    ensures v == 2 * (v / 2) + v % 2 && v % 2 < 2
  {
  }

  lemma HalvesOf(a: nat, i: nat)
    requires i < 2
    ensures (2 * a + i) / 2 == a && (2 * a + i) % 2 == i
  {
  }

  lemma AndStep(v: nat, b: nat, j: nat)
    requires j < 2
    ensures And(v, 2 * b + j) == 2 * And(v / 2, b) + if v % 2 == 1 && j == 1 then 1 else 0
  {
    HalvesOf(b, j);
  }

  lemma OrStep(a: nat, i: nat, b: nat, j: nat)
    requires i < 2 && j < 2
    ensures Or(2 * a + i, 2 * b + j) == 2 * Or(a, b) + if i == 1 || j == 1 then 1 else 0
  {
    HalvesOf(a, i);
    HalvesOf(b, j);
  }

  lemma AndOfZero(v: nat)
    ensures And(v, 0) == 0 == And(0, v) && Or(v, 0) == v == Or(0, v)
  {
  }

  lemma {:induction false} AndSelf(x: nat)
    ensures And(x, x) == x
  {
    hide And;
    if x == 0 {
      AndOfZero(0);
    } else {
      AndSelf(x / 2);
      Halves(x);
      AndStep(x, x / 2, x % 2);
    }
  }

  lemma {:induction false} AndIsSmaller(x: nat, y: nat)
    ensures And(x, y) <= x && And(x, y) <= y
  {
    if x > 0 && y > 0 {
      AndIsSmaller(x / 2, y / 2);
    }
  }

  lemma Pow2Next(k: nat)
    requires k > 0
    ensures Pow2(k) == 2 * Pow2(k - 1) && Pow2(k - 1) > 0
  {
  }

  /** The low bits are the remainder. */
  lemma {:induction false} AndLowBits(v: nat, k: nat)
    ensures And(v, Pow2(k) - 1) == v % Pow2(k)
  {
    if k == 0 {
      AndOfZero(v);
      assert Pow2(0) == 1 && v % 1 == 0;
    } else {
      hide And, Pow2;
      Pow2Next(k);
      AndLowBits(v / 2, k - 1);
      var low := Pow2(k - 1) - 1;
      assert Pow2(k) - 1 == 2 * low + 1;
      AndStep(v, low, 1);
      LowStep(v, Pow2(k - 1));
    }
  }

  /** The bits from the `k`-th on are what is left without the remainder. */
  lemma {:induction false} AndHighBits(v: nat, k: nat, n: nat)
    requires k <= n && v < Pow2(n)
    ensures Pow2(k) <= Pow2(n) && And(v, Pow2(n) - Pow2(k)) == v - v % Pow2(k)
  {
    if k == 0 {
      assert Pow2(0) == 1 && v % 1 == 0;
      AndLowBits(v, n);
      Small(v, Pow2(n));
    } else {
      hide And, Pow2;
      Pow2Next(k);
      Pow2Next(n);
      Halves(v);
      AndHighBits(v / 2, k - 1, n - 1);
      var high := Pow2(n - 1) - Pow2(k - 1);
      assert Pow2(n) - Pow2(k) == 2 * high + 0;
      AndStep(v, high, 0);
      LowStep(v, Pow2(k - 1));
    }
  }

  /** Higher bits and lower ones put together. */
  lemma {:induction false} OrShifted(h: nat, b: nat, k: nat)
    requires b < Pow2(k)
    ensures Or(Pow2(k) * h, b) == Pow2(k) * h + b
  {
    if k == 0 {
      assert Pow2(0) == 1;
      AndOfZero(h);
    } else {
      hide Or, Pow2;
      var p := Pow2(k - 1);
      Pow2Next(k);
      Halves(b);
      OrShifted(h, b / 2, k - 1);
      Associates(2, p, h);
      OrStep(p * h, 0, b / 2, b % 2);
    }
  }

  lemma {:induction false} Pow2Splits(i: nat, j: nat)
    ensures Pow2(i + j) == Pow2(i) * Pow2(j)
    decreases j
  {
    if j == 0 {
      assert Pow2(0) == 1;
    } else {
      hide Pow2;
      Pow2Next(j);
      Pow2Next(i + j);
      Pow2Splits(i, j - 1);
      Associates(2, Pow2(i), Pow2(j - 1));
      Associates(Pow2(i), 2, Pow2(j - 1));
    }
  }

  lemma Powers()
    ensures Pow2(4) == 16 && Pow2(8) == 256 && Pow2(28) == 0x1000_0000 && Pow2(30) == 0x4000_0000 && Pow2(32) == 0x1_0000_0000
  {
    assert Pow2(12) == 0x1000;
    assert Pow2(20) == 0x10_0000;
  }

  // ----- Bit by bit, once more -----

  /** Every bit of a conjunction, a disjunction and an exclusive disjunction. */
  lemma {:induction false} BitsOf(x: nat, y: nat, k: nat)
    ensures BitSet(And(x, y), k) <==> BitSet(x, k) && BitSet(y, k)
    ensures BitSet(Or(x, y), k) <==> BitSet(x, k) || BitSet(y, k)
    ensures BitSet(Xor(x, y), k) <==> BitSet(x, k) != BitSet(y, k)
  {
    HalvedAndLowest(x, y);
    hide And, Or, Xor;
    if k > 0 {
      BitsOf(x / 2, y / 2, k - 1);
    }
  }

  lemma HalvedAndLowest(x: nat, y: nat)
    ensures And(x, y) / 2 == And(x / 2, y / 2) && (And(x, y) % 2 == 1 <==> x % 2 == 1 && y % 2 == 1)
    ensures Or(x, y) / 2 == Or(x / 2, y / 2) && (Or(x, y) % 2 == 1 <==> x % 2 == 1 || y % 2 == 1)
    ensures Xor(x, y) / 2 == Xor(x / 2, y / 2) && (Xor(x, y) % 2 == 1 <==> x % 2 != y % 2)
  {
    AndHalved(x, y);
    OrHalved(x, y);
    XorHalved(x, y);
    hide And, Or, Xor;
  }

  lemma AndHalved(x: nat, y: nat)
    ensures And(x, y) / 2 == And(x / 2, y / 2) && (And(x, y) % 2 == 1 <==> x % 2 == 1 && y % 2 == 1)
  {
  }

  lemma OrHalved(x: nat, y: nat)
    ensures Or(x, y) / 2 == Or(x / 2, y / 2) && (Or(x, y) % 2 == 1 <==> x % 2 == 1 || y % 2 == 1)
  {
  }

  lemma XorHalved(x: nat, y: nat)
    ensures Xor(x, y) / 2 == Xor(x / 2, y / 2) && (Xor(x, y) % 2 == 1 <==> x % 2 != y % 2)
  {
  }

  lemma {:induction false} XorIsBelow(x: nat, y: nat, k: nat)
    requires x < Pow2(k) && y < Pow2(k)
    ensures Xor(x, y) < Pow2(k)
  {
    if k == 0 {
      assert Pow2(0) == 1;
    } else {
      XorIsBelow(x / 2, y / 2, k - 1);
      HalvedAndLowest(x, y);
      hide Xor;
    }
  }

  /** The `k`-th bit as arithmetic. */
  lemma {:induction false} BitIsQuotient(v: nat, k: nat)
    ensures BitSet(v, k) <==> v / Pow2(k) % 2 == 1
  {
    if k == 0 {
      assert Pow2(0) == 1 && v / 1 == v;
    } else {
      hide Pow2;
      Pow2Next(k);
      BitIsQuotient(v / 2, k - 1);
      HalfQuotient(v, Pow2(k - 1));
    }
  }

  lemma HalfQuotient(v: nat, p: nat)
    requires p > 0
    ensures v / (2 * p) == v / 2 / p
  {
    Quotient(v / 2, p);
    Associates(2, v / 2 / p, p);
    Associates(v / 2 / p, 2, p);
    RemainderIs(v, 2 * p, v / 2 / p, 2 * (v / 2 % p) + v % 2);
  }
}
