// Fixed-point numbers of libpng in units of 1/100000, and png_muldiv and png_reciprocal with
// floating point, where floor(r + .5) is taken exactly (3rdParty/libpng/png.c:3167-3185, 3303-3322).
module FixedPoint {
  import opened Wrappers
  import opened Bits
  import opened MulDiv

  const FP_1 := 100000

  function Nearest(n: int, d: int): int
    requires d != 0
  {
    if d > 0 then HalfUp(n, d) else HalfUp(-n, -d)
  }

  function MulDivNearest(a: int, times: int, divisor: int): Option<int> {
    if divisor == 0 then None
    else if a == 0 || times == 0 then Some(0)
    else
      var r := Nearest(Times(a, times), divisor);
      if IsInt32(r) then Some(r) else None
  }

  // Division by zero gives an infinity, which is out of range.
  function Reciprocal(a: int): int {
    if a == 0 then 0
    else
      var r := Nearest(10000000000, a);
      if IsInt32(r) then r else 0
  }

  // Being nearest means being at most half a divisor away.
  lemma HalfUpError(n: int, d: int)
    requires d > 0
    ensures -d < 2 * (Times(d, HalfUp(n, d)) - n) <= d
  {
    var m := 2 * n + d;
    var h := m / (2 * d);
    assert m == (2 * d) * h + m % (2 * d);
    assert 0 <= m % (2 * d) < 2 * d;
    assert (2 * d) * h == 2 * (d * h);
  }

  lemma HalfUpUnique(n: int, d: int, h: int)
    requires d > 0 && -d < 2 * (Times(d, h) - n) <= d
    ensures HalfUp(n, d) == h
  {
    HalfUpIs(n, d, h, 2 * n + d - 2 * Times(d, h));
  }

  lemma HalfUpZero(d: int)
    requires d > 0
    ensures HalfUp(0, d) == 0
  {
    HalfUpUnique(0, d, 0);
  }

  lemma HalfUpMonotone(m: int, n: int, d: int)
    requires d > 0 && m <= n
    ensures HalfUp(m, d) <= HalfUp(n, d)
  {
    HalfUpError(m, d);
    HalfUpError(n, d);
    var x, y := HalfUp(m, d), HalfUp(n, d);
    if x > y {
      StepApart(d, x, y);
    }
  }

  lemma StepApart(d: int, x: int, y: int)
    requires d > 0 && x > y
    ensures Times(d, x) >= Times(d, y) + d
  {
    MulAtLeast(d, x - y);
    assert d * (x - y) == d * x - d * y;
  }

  lemma LargerFactor(d: int, e: int, m: int)
    requires d <= e && m >= 0
    ensures Times(d, m) <= Times(e, m)
  {
  }

  lemma OddMultiples(d: int, x: int)
    ensures Times(d, 2 * x - 1) == 2 * Times(d, x) - d && Times(d, 2 * x + 1) == 2 * Times(d, x) + d
  {
  }

  // A larger divisor gives no larger quotient.
  lemma HalfUpAntitone(n: nat, d: nat, e: nat)
    requires 0 < d <= e
    ensures 0 <= HalfUp(n, e) <= HalfUp(n, d)
  {
    HalfUpMonotone(0, n, e);
    HalfUpZero(e);
    HalfUpMonotone(0, n, d);
    HalfUpZero(d);
    HalfUpError(n, d);
    HalfUpError(n, e);
    var x, y := HalfUp(n, e), HalfUp(n, d);
    if x > y {
      LargerProduct(d, e, x, y);
    }
  }

  lemma LargerProduct(d: int, e: int, x: int, y: int)
    requires 0 < d <= e && 0 <= y < x
    ensures 2 * Times(e, x) - e >= 2 * Times(d, y) + d
  {
    LargerFactor(d, e, 2 * x - 1);
    OddMultiples(e, x);
    OddMultiples(d, x);
    OddMultiples(d, y);
    StepApart(d, x, y);
    hide Times;
  }
}
