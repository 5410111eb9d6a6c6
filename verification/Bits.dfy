// The bit operations of C on unsigned integers, with what they amount to in arithmetic.
module Bits {
  function Pow2(k: nat): (p: nat)
    ensures p > 0
  {
    if k == 0 then 1 else 2 * Pow2(k - 1)
  }

  // x & y
  function And(x: nat, y: nat): nat {
    if x == 0 || y == 0 then 0
    else (if x % 2 == 1 && y % 2 == 1 then 1 else 0) + 2 * And(x / 2, y / 2)
  }

  // x | y
  function Or(x: nat, y: nat): nat {
    if x == 0 then y
    else if y == 0 then x
    else (if x % 2 == 1 || y % 2 == 1 then 1 else 0) + 2 * Or(x / 2, y / 2)
  }

  // x << k, before any truncation
  function Shl(x: nat, k: nat): nat {
    x * Pow2(k)
  }

  // x >> k
  function Shr(x: nat, k: nat): nat {
    Quotient(x, Pow2(k))
  }

  function Quotient(x: nat, d: nat): nat
    requires d > 0
  {
    x / d
  }

  const TWO16 := 0x1_0000
  const TWO31 := 0x8000_0000
  const TWO32 := 0x1_0000_0000

  lemma {:induction false} Pow2Sum(a: nat, b: nat)
    ensures Pow2(a + b) == Pow2(a) * Pow2(b)
  {
    if a > 0 {
      Pow2Sum(a - 1, b);
    }
  }

  lemma Pow2Values()
    ensures Pow2(0) == 1 && Pow2(1) == 2 && Pow2(2) == 4 && Pow2(3) == 8 && Pow2(4) == 0x10
    ensures Pow2(5) == 0x20 && Pow2(6) == 0x40 && Pow2(7) == 0x80 && Pow2(8) == 0x100
    ensures Pow2(9) == 0x200 && Pow2(10) == 0x400 && Pow2(11) == 0x800 && Pow2(12) == 0x1000
    ensures Pow2(13) == 0x2000 && Pow2(14) == 0x4000 && Pow2(15) == 0x8000 && Pow2(16) == 0x10000
  {
    assert Pow2(4) == 16;
    assert Pow2(8) == 256 by { Pow2Sum(4, 4); }
    assert Pow2(12) == 0x1000;
  }

  lemma {:induction false} Pow2Monotone(a: nat, b: nat)
    requires a <= b
    ensures Pow2(a) <= Pow2(b)
  {
    if a < b {
      Pow2Monotone(a, b - 1);
    }
  }

  // Quotient and remainder are determined by their equation.
  lemma Divide(x: int, d: int, q: int, r: int)
    requires d > 0 && x == d * q + r && 0 <= r < d
    ensures x / d == q && x % d == r
  {
    var e := x / d - q;
    assert d * e == r - x % d;
    DivideUnique(d, e);
  }

  lemma DivideUnique(d: int, e: int)
    requires d > 0 && -d < d * e < d
    ensures e == 0
  {
    if e > 0 {
      MulAtLeast(d, e);
    } else if e < 0 {
      MulAtMost(d, e);
    }
  }

  lemma MulAtLeast(d: int, e: int)
    requires d > 0 && e > 0
    ensures d * e >= d
  {
  }

  lemma MulAtMost(d: int, e: int)
    requires d > 0 && e < 0
    ensures d * e <= -d
  {
  }

  // x, with a in the k bits below it
  function Append(x: nat, a: nat, k: nat): nat {
    Pow2(k) * x + a
  }

  lemma AppendHalf(x: nat, a: nat, k: nat)
    requires k > 0
    ensures Append(x, a, k) % 2 == a % 2
    ensures Append(x, a, k) / 2 == Append(x, a / 2, k - 1)
  {
    var px := Pow2(k - 1) * x;
    assert Pow2(k) * x == 2 * px;
  }

  lemma AppendStep(x: nat, a: nat, bit: nat, k: nat)
    requires k > 0
    ensures Append(x, bit + 2 * a, k) == bit + 2 * Append(x, a, k - 1)
  {
    var px := Pow2(k - 1) * x;
    assert Pow2(k) * x == 2 * px;
  }

  lemma AndStep(x: nat, y: nat)
    ensures And(x, y) == (if x % 2 == 1 && y % 2 == 1 then 1 else 0) + 2 * And(x / 2, y / 2)
  {
  }

  lemma OrStep(x: nat, y: nat)
    ensures Or(x, y) == (if x % 2 == 1 || y % 2 == 1 then 1 else 0) + 2 * Or(x / 2, y / 2)
  {
  }

  // The low k bits and the others are combined separately.
  lemma {:induction false} AndAppend(x: nat, a: nat, y: nat, b: nat, k: nat)
    requires a < Pow2(k) && b < Pow2(k)
    ensures And(Append(x, a, k), Append(y, b, k)) == Append(And(x, y), And(a, b), k)
  {
    if k > 0 {
      hide Append, And;
      AndAppend(x, a / 2, y, b / 2, k - 1);
      AppendHalf(x, a, k);
      AppendHalf(y, b, k);
      AndStep(Append(x, a, k), Append(y, b, k));
      AndStep(a, b);
      AppendStep(And(x, y), And(a / 2, b / 2), if And(a, b) % 2 == 0 then 0 else 1, k);
    } else {
      assert Append(x, a, 0) == x && Append(y, b, 0) == y;
    }
  }

  lemma {:induction false} OrAppend(x: nat, a: nat, y: nat, b: nat, k: nat)
    requires a < Pow2(k) && b < Pow2(k)
    ensures Or(Append(x, a, k), Append(y, b, k)) == Append(Or(x, y), Or(a, b), k)
  {
    if k > 0 {
      hide Append, Or;
      OrAppend(x, a / 2, y, b / 2, k - 1);
      AppendHalf(x, a, k);
      AppendHalf(y, b, k);
      OrStep(Append(x, a, k), Append(y, b, k));
      OrStep(a, b);
      AppendStep(Or(x, y), Or(a / 2, b / 2), if Or(a, b) % 2 == 0 then 0 else 1, k);
    } else {
      assert Append(x, a, 0) == x && Append(y, b, 0) == y;
    }
  }

  lemma DivMod(x: nat, d: nat)
    requires d > 0
    ensures x == d * (x / d) + x % d && x / d >= 0 && 0 <= x % d < d
  {
  }

  // A mask of k ones keeps the remainder.
  lemma AndMask(x: nat, k: nat)
    ensures And(x, Pow2(k) - 1) == x % Pow2(k)
  {
    hide Pow2, And;
    DivMod(x, Pow2(k));
    var q, r := x / Pow2(k), x % Pow2(k);
    AndAppend(q, r, 0, Pow2(k) - 1, k);
    AndOnes(r, k);
    AndZero(q);
  }

  lemma AndZero(x: nat)
    ensures And(x, 0) == 0
  {
  }

  lemma {:induction false} AndOnes(a: nat, k: nat)
    requires a < Pow2(k)
    ensures And(a, Pow2(k) - 1) == a
  {
    if k > 0 {
      AndOnes(a / 2, k - 1);
      AndStep(a, Pow2(k) - 1);
    }
  }

  // Numbers without a common bit are added.
  lemma OrDisjoint(x: nat, y: nat, k: nat)
    requires y < Pow2(k)
    ensures Or(Pow2(k) * x, y) == Pow2(k) * x + y
  {
    OrAppend(x, 0, 0, y, k);
    assert Append(0, y, k) == y;
  }
}
