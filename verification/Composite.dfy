// Alpha compositing with and without a division (3rdParty/libpng/png.h:2693-2733).
module Composite {
  import opened Bits
  import opened MulDiv
  import opened FixedPoint

  // --------------------------------------------------------------------- the macros

  function U16(x: int): (u: nat)
    ensures u < TWO16
    ensures 0 <= x < TWO16 ==> u == x
  {
    x % TWO16
  }

  function U8(x: int): (u: nat)
    ensures u < 256
    ensures 0 <= x < 256 ==> u == x
  {
    x % 256
  }

  // png_composite where PNG_READ_COMPOSITE_NODIV_SUPPORTED is defined
  function CompositeNoDiv(fg: nat, alpha: nat, bg: nat): nat
    requires fg < 256 && alpha < 256 && bg < 256
  {
    var temp := U16(Times(fg, alpha) + Times(bg, 255 - alpha) + 128);
    U8(Shr(temp + Shr(temp, 8), 8))
  }

  // png_composite otherwise
  function CompositeDiv(fg: nat, alpha: nat, bg: nat): nat
    requires fg < 256 && alpha < 256 && bg < 256
  {
    U8((Times(fg, alpha) + Times(bg, 255 - alpha) + 127) / 255)
  }

  // png_composite_16
  function CompositeNoDiv16(fg: nat, alpha: nat, bg: nat): nat
    requires fg < TWO16 && alpha < TWO16 && bg < TWO16
  {
    var temp := U32(U32(U32(Times(fg, alpha)) + U32(Times(bg, 65535 - alpha))) + 32768);
    U16(Shr(U32(temp + Shr(temp, 16)), 16))
  }

  function CompositeDiv16(fg: nat, alpha: nat, bg: nat): nat
    requires fg < TWO16 && alpha < TWO16 && bg < TWO16
  {
    U16(U32(U32(U32(Times(fg, alpha)) + U32(Times(bg, 65535 - alpha))) + 32767) / 65535)
  }

  // --------------------------------------------------------------------- any base

  // Dividing by b twice, once to correct, is dividing by b - 1 with rounding.
  lemma TwoShifts(x: nat, b: nat)
    requires b % 2 == 0 && b >= 2 && x <= Times(b - 1, b - 1)
    ensures Quotient(x + b / 2 + Quotient(x + b / 2, b), b) == Quotient(x + b / 2 - 1, b - 1) < b
  {
    hide Times, Quotient, Remainder;
    var d, n := b - 1, x + b / 2 - 1;
    var q, r := Quotient(n, d), Remainder(n, d);
    Roundings(n, d);
    if q >= b {
      StepApart(d, q, d);
    }
    CorrectedQuotient(b, q, r, x + b / 2);
  }

  lemma CorrectedQuotient(b: nat, q: nat, r: nat, t: nat)
    requires q < b && r < b - 1 && t == Times(b - 1, q) + r + 1
    ensures Quotient(t + Quotient(t, b), b) == q
  {
    hide Times, Quotient;
    NextProduct(b, q);
    if r + 1 >= q {
      QuotientIs(t, b, q, r + 1 - q);
      QuotientIs(t + q, b, q, r + 1);
    } else {
      QuotientIs(t, b, q - 1, r + 1 - q + b);
      QuotientIs(t + (q - 1), b, q, r);
    }
  }

  lemma NextProduct(b: int, q: int)
    ensures Times(b, q) == Times(b - 1, q) + q && Times(b, q - 1) == Times(b, q) - b
  {
  }

  lemma QuotientIs(x: nat, d: nat, q: nat, r: nat)
    requires x == Times(d, q) + r && r < d
    ensures Quotient(x, d) == q
  {
    Divide(x, d, q, r);
  }

  // For an odd divisor that is the nearest integer.
  lemma DivisionIsNearest(x: nat, b: nat)
    requires b % 2 == 0 && b >= 2
    ensures Quotient(x + b / 2 - 1, b - 1) == HalfUp(x, b - 1)
  {
    var d, n := b - 1, x + b / 2 - 1;
    DivMod(n, d);
    HalfUpUnique(x, d, n / d);
  }

  // A weighted sum is at most the square of the largest value, and its mean lies between.
  lemma WeightedSum(fg: nat, alpha: nat, bg: nat, d: nat)
    requires fg <= d && alpha <= d && bg <= d
    ensures 0 <= Times(fg, alpha) <= Times(d, d) && 0 <= Times(bg, d - alpha) <= Times(d, d)
    ensures Times(fg, alpha) + Times(bg, d - alpha) <= Times(d, d)
    ensures fg <= bg ==> Times(d, fg) <= Times(fg, alpha) + Times(bg, d - alpha) <= Times(d, bg)
    ensures bg <= fg ==> Times(d, bg) <= Times(fg, alpha) + Times(bg, d - alpha) <= Times(d, fg)
  {
    var m, k := if fg <= bg then fg else bg, if fg <= bg then bg else fg;
    MulUpTo(m, fg, alpha, alpha);
    MulUpTo(fg, k, alpha, alpha);
    MulUpTo(m, bg, d - alpha, d - alpha);
    MulUpTo(bg, k, d - alpha, d - alpha);
    MulUpTo(k, d, d, d);
    MulUpTo(fg, d, alpha, d);
    MulUpTo(bg, d, d - alpha, d);
    SumOfWeights(m, alpha, d);
    SumOfWeights(k, alpha, d);
  }

  lemma SumOfWeights(v: int, alpha: int, d: int)
    ensures v * alpha + v * (d - alpha) == Times(d, v) == v * d
  {
  }

  // The nearest integer to a mean lies between, too.
  lemma MeanBetween(x: int, d: nat, low: int, high: int)
    requires d > 0 && Times(d, low) <= x <= Times(d, high)
    ensures low <= HalfUp(x, d) <= high
  {
    HalfUpUnique(Times(d, low), d, low);
    HalfUpUnique(Times(d, high), d, high);
    HalfUpMonotone(Times(d, low), x, d);
    HalfUpMonotone(x, Times(d, high), d);
  }

  // --------------------------------------------------------------------- both macros

  function Mixed(fg: nat, alpha: nat, bg: nat, d: nat): int
    requires d > 0
  {
    HalfUp(Times(fg, alpha) + Times(bg, d - alpha), d)
  }

  // Both variants are the nearest integer to the mean of foreground and background; nothing
  // overflows 16 bits.
  lemma CompositeAgrees(fg: nat, alpha: nat, bg: nat)
    requires fg < 256 && alpha < 256 && bg < 256
    ensures CompositeNoDiv(fg, alpha, bg) == CompositeDiv(fg, alpha, bg) == Mixed(fg, alpha, bg, 255)
  {
    var x := Times(fg, alpha) + Times(bg, 255 - alpha);
    WeightedSum(fg, alpha, bg, 255);
    Pow2Values();
    TwoShifts(x, 256);
    DivisionIsNearest(x, 256);
    assert Quotient(x + 127, 255) == (x + 127) / 255;
    hide Times, HalfUp, Quotient;
  }

  // The same in 32 bits
  lemma Composite16Agrees(fg: nat, alpha: nat, bg: nat)
    requires fg < TWO16 && alpha < TWO16 && bg < TWO16
    ensures CompositeNoDiv16(fg, alpha, bg) == CompositeDiv16(fg, alpha, bg) == Mixed(fg, alpha, bg, 65535)
  {
    var x := Times(fg, alpha) + Times(bg, 65535 - alpha);
    WeightedSum(fg, alpha, bg, 65535);
    Pow2Values();
    TwoShifts(x, TWO16);
    DivisionIsNearest(x, TWO16);
    assert Quotient(x + 32767, 65535) == (x + 32767) / 65535;
    SmallQuotient(x + 32768, TWO16);
    hide Times, HalfUp, Quotient, U32;
  }

  lemma SmallQuotient(t: nat, b: nat)
    requires t < TWO32 && b == TWO16
    ensures Quotient(t, b) < TWO16
  {
    DivMod(t, b);
  }

  // A mixture never leaves the range between its two colors, and an alpha at either end
  // selects one of them.
  lemma MixedBetween(fg: nat, alpha: nat, bg: nat, d: nat)
    requires d > 0 && fg <= d && alpha <= d && bg <= d
    ensures fg <= bg ==> fg <= Mixed(fg, alpha, bg, d) <= bg
    ensures bg <= fg ==> bg <= Mixed(fg, alpha, bg, d) <= fg
    ensures alpha == d ==> Mixed(fg, alpha, bg, d) == fg
    ensures alpha == 0 ==> Mixed(fg, alpha, bg, d) == bg
  {
    var x := Times(fg, alpha) + Times(bg, d - alpha);
    WeightedSum(fg, alpha, bg, d);
    Ends(fg, alpha, bg, d);
    hide Times, HalfUp;
    if fg <= bg {
      MeanBetween(x, d, fg, bg);
    } else {
      MeanBetween(x, d, bg, fg);
    }
  }

  lemma Ends(fg: nat, alpha: nat, bg: nat, d: nat)
    requires d > 0 && alpha <= d
    ensures alpha == d ==> Mixed(fg, alpha, bg, d) == fg
    ensures alpha == 0 ==> Mixed(fg, alpha, bg, d) == bg
  {
    TimesEnds(fg, d);
    TimesEnds(bg, d);
    hide Times, HalfUp;
    if alpha == d {
      MeanBetween(Times(fg, d), d, fg, fg);
    }
    if alpha == 0 {
      MeanBetween(Times(bg, d), d, bg, bg);
    }
  }

  lemma TimesEnds(v: nat, d: nat)
    ensures Times(v, 0) == 0 && Times(v, d) == Times(d, v)
  {
  }
}
