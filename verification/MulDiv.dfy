// png_muldiv without floating point: a 64-bit product and quotient from 32-bit pieces
// (3rdParty/libpng/png.c:3151-3274).
module MulDiv {
  import opened Wrappers
  import opened Bits

  // A value as png_uint_32 holds it.
  function U32(x: int): (u: nat)
    ensures u < TWO32
    ensures 0 <= x < TWO32 ==> u == x
    ensures TWO32 <= x < 2 * TWO32 ==> u == x - TWO32
    ensures -TWO32 <= x < 0 ==> u == x + TWO32
  {
    x % TWO32
  }

  // The same 32 bits as a png_int_32 of two's complement.
  function Signed(u: nat): int {
    if u < TWO31 then u else u - TWO32
  }

  predicate IsInt32(x: int) {
    -TWO31 <= x < TWO31
  }

  function Abs(x: int): nat {
    if x < 0 then -x else x
  }

  function Remainder(x: nat, d: nat): nat
    requires d > 0
  {
    x % d
  }

  function Times(x: int, y: int): int {
    x * y
  }

  // The magnitude of the result: the quotient, one more if the remainder is not below half
  // the divisor, where the half of an odd divisor is rounded down.
  function Rounded(p: nat, d: nat): nat
    requires d > 0
  {
    Quotient(p, d) + if Remainder(p, d) >= d / 2 then 1 else 0
  }

  predicate Negative(a: int, times: int, divisor: int) {
    ((a < 0) != (times < 0)) != (divisor < 0)
  }

  function WithSign(negative: bool, r: int): int {
    if negative then -r else r
  }

  // --------------------------------------------------------------------- the product

  lemma Split16(x: nat)
    requires x <= TWO31
    ensures x == TWO16 * Shr(x, 16) + And(x, 0xffff)
    ensures And(x, 0xffff) < TWO16 && Shr(x, 16) <= 0x8000
    ensures Shr(x, 16) == 0x8000 ==> And(x, 0xffff) == 0
  {
    Pow2Values();
    AndMask(x, 16);
    DivMod(x, TWO16);
  }

  lemma CrossSum(ah: nat, al: nat, th: nat, tl: nat)
    requires ah <= 0x8000 && th <= 0x8000 && al < TWO16 && tl < TWO16
    requires (ah == 0x8000 ==> al == 0) && (th == 0x8000 ==> tl == 0)
    ensures 0 <= ah * tl < TWO31 && 0 <= al * th < TWO31 && 0 <= al * tl && 0 <= ah * th
    ensures al * tl <= TWO32 - 2 * TWO16 + 1 && ah * th <= 0x4000_0000
  {
    MulUpTo(ah, 0x8000, tl, TWO16 - 1);
    MulUpTo(al, TWO16 - 1, th, 0x8000);
    MulUpTo(al, TWO16 - 1, tl, TWO16 - 1);
    MulUpTo(ah, 0x8000, th, 0x8000);
  }

  lemma MulUpTo(x: nat, m: nat, y: nat, n: nat)
    requires x <= m && y <= n
    ensures 0 <= x * y <= m * n
  {
    assert x * y <= m * y <= m * n;
  }

  lemma ProductOfHalves(a: nat, t: nat, ah: nat, al: nat, th: nat, tl: nat)
    requires a == TWO16 * ah + al && t == TWO16 * th + tl
    ensures a * t == TWO32 * (ah * th) + TWO16 * (ah * tl + al * th) + al * tl
  {
    calc {
      a * t;
      (TWO16 * ah + al) * (TWO16 * th + tl);
      TWO16 * ah * (TWO16 * th + tl) + al * (TWO16 * th + tl);
      TWO16 * ah * (TWO16 * th) + TWO16 * ah * tl + al * (TWO16 * th) + al * tl;
    }
  }

  // The product of two magnitudes in two words
  method Product(A: nat, T: nat) returns (s32: nat, s00: nat)
    requires A <= TWO31 && T <= TWO31
    ensures s32 < TWO32 && s00 < TWO32
    ensures TWO32 * s32 + s00 == Times(A, T)
  {
    Split16(A);
    Split16(T);
    hide And, Shr, Pow2, Quotient;
    var ah, al, th, tl := Shr(A, 16), And(A, 0xffff), Shr(T, 16), And(T, 0xffff);
    CrossSum(ah, al, th, tl);
    ProductOfHalves(A, T, ah, al, th, tl);
    s32, s00 := Combine(ah * th, ah * tl, al * th, al * tl);
  }

  // The four partial products, each as it is computed in 32 bits
  method Combine(hh: nat, hl: nat, lh: nat, ll: nat) returns (s32: nat, s00: nat)
    requires hh <= 0x4000_0000 && hl < TWO31 && lh < TWO31 && ll <= TWO32 - 2 * TWO16 + 1
    ensures s32 < TWO32 && s00 < TWO32
    ensures TWO32 * s32 + s00 == TWO32 * hh + TWO16 * (hl + lh) + ll
  {
    hide And, Shr, Shl, Pow2, Quotient, U32;
    var s16 := U32(U32(hl) + U32(lh));
    Split32(s16);
    s32 := U32(U32(hh) + Shr(s16, 16));
    s00 := U32(ll);
    s16 := U32(Shl(And(s16, 0xffff), 16));
    s00 := U32(s00 + s16);
    if s00 < s16 {
      s32 := U32(s32 + 1);   // carry
    }
  }

  lemma Split32(x: nat)
    requires x < TWO32
    ensures x == TWO16 * Shr(x, 16) + And(x, 0xffff)
    ensures And(x, 0xffff) < TWO16 && Shr(x, 16) < TWO16
    ensures Shl(And(x, 0xffff), 16) == TWO16 * And(x, 0xffff)
  {
    Pow2Values();
    AndMask(x, 16);
    DivMod(x, TWO16);
  }

  // --------------------------------------------------------------------- the quotient

  // D << bitshift in two words
  method Shifted(D: nat, bitshift: nat) returns (d32: nat, d00: nat)
    requires D <= TWO31 && bitshift < 32
    ensures d32 < TWO32 && d00 < TWO32
    ensures TWO32 * d32 + d00 == Shl(D, bitshift)
  {
    if bitshift > 0 {
      d32, d00 := Shr(D, 32 - bitshift), U32(Shl(D, bitshift));
      ShiftedOut(D, bitshift);
    } else {
      d32, d00 := 0, D;
    }
  }

  lemma ShiftedOut(d: nat, b: nat)
    requires d <= TWO31 && 0 < b < 32
    ensures TWO32 * Shr(d, 32 - b) + U32(Shl(d, b)) == Shl(d, b) && Shr(d, 32 - b) <= TWO31
  {
    var p, k := Pow2(b), Pow2(32 - b);
    Pow2Sum(b, 32 - b);
    Pow2Values();
    Pow2Sum(16, 16);
    var q, r := d / k, d % k;
    DivMod(d, k);
    Scaled(d, p, k, q, r);
    Divide(d * p, TWO32, q, r * p);
    Bound(d, k);
  }

  lemma Scaled(d: nat, p: nat, k: nat, q: nat, r: nat)
    requires p * k == TWO32 && d == k * q + r && r < k && p > 0
    ensures d * p == TWO32 * q + r * p && 0 <= r * p < TWO32
  {
    assert d * p == p * k * q + r * p;
    assert r * p <= (k - 1) * p;
    assert (k - 1) * p == k * p - p;
  }

  lemma Bound(d: nat, k: nat)
    requires k > 0
    ensures d / k <= d
  {
    DivMod(d, k);
    if d / k > 0 {
      MulUpTo(1, k, d / k, d / k);
    }
  }

  // What the loop has subtracted so far is result times D.
  method Divided(high: nat, low: nat, D: nat) returns (result: nat, s00: nat)
    requires high < D <= TWO31 && low < TWO32
    ensures result == Quotient(TWO32 * high + low, D) < TWO32
    ensures s00 == Remainder(TWO32 * high + low, D)
  {
    hide Shl, Pow2, Quotient, Remainder, Times, U32;
    ghost var p := TWO32 * high + low;
    var s32: nat := high;
    s00 := low;
    var bitshift := 32;
    result := 0;
    StartShift(D, high, low);
    while bitshift > 0
      invariant 0 <= bitshift <= 32
      invariant s32 < TWO32 && s00 < TWO32
      invariant TWO32 * s32 + s00 < Shl(D, bitshift)
      invariant Times(result, D) + TWO32 * s32 + s00 == p
      invariant result + Pow2(bitshift) <= TWO32
    {
      bitshift := bitshift - 1;
      Halve(D, bitshift);
      AddBit(result, D, bitshift);
      var d32, d00 := Shifted(D, bitshift);
      if s32 > d32 {
        if s00 < d00 {
          s32 := U32(s32 - 1);   // carry
        }
        s32, s00, result := U32(s32 - d32), U32(s00 - d00), U32(result + Pow2(bitshift));
      } else if s32 == d32 && s00 >= d00 {
        s32, s00, result := 0, U32(s00 - d00), U32(result + Pow2(bitshift));
      }
    }
    ShiftNone(D);
    assert s32 == 0;
    Done(p, D, result, s00);
  }

  lemma StartShift(d: nat, high: nat, low: nat)
    requires high < d && low < TWO32
    ensures TWO32 * high + low < Shl(d, 32) && Pow2(32) == TWO32 && Times(0, d) == 0
  {
    Pow2Values();
    Pow2Sum(16, 16);
  }

  lemma Halve(d: nat, b: nat)
    ensures Shl(d, b + 1) == 2 * Shl(d, b) && Pow2(b + 1) == 2 * Pow2(b)
  {
    assert d * (2 * Pow2(b)) == 2 * (d * Pow2(b));
  }

  lemma AddBit(r: nat, d: nat, b: nat)
    ensures Times(r + Pow2(b), d) == Times(r, d) + Shl(d, b)
  {
  }

  lemma ShiftNone(d: nat)
    ensures Shl(d, 0) == d
  {
  }

  lemma Done(p: nat, d: nat, q: nat, r: nat)
    requires Times(q, d) + r == p && r < d
    ensures q == Quotient(p, d) && r == Remainder(p, d)
  {
    Divide(p, d, q, r);
  }

  // --------------------------------------------------------------------- the whole

  // A -x is taken in 32 bits: the most negative number keeps its bits.
  method Magnitude(x: int) returns (m: nat)
    requires IsInt32(x)
    ensures m == Abs(x) <= TWO31
  {
    if x < 0 {
      m := U32(-x);
    } else {
      m := x;
    }
  }

  // Handle the rounding and the sign, then check for overflow
  method Deliver(quotient: nat, s00: nat, D: nat, negative: bool) returns (res: Option<int>)
    requires quotient < TWO32
    ensures res == InRange(negative, quotient, quotient + if s00 >= D / 2 then 1 else 0)
  {
    hide U32, Shr, Pow2;
    var result: int := quotient;
    Half(D);
    if s00 >= Shr(D, 1) {
      result := U32(result + 1);
    }
    if negative {
      result := U32(-result);
    }
    if (negative && Signed(result) <= 0) || (!negative && Signed(result) >= 0) {
      return Some(Signed(result));
    }
    return None;
  }

  ghost function InRange(negative: bool, quotient: nat, rounded: nat): Option<int> {
    if rounded == TWO32 && quotient < TWO32 then Some(0)
    else if IsInt32(WithSign(negative, rounded)) then Some(WithSign(negative, rounded))
    else None
  }

  // It succeeds with the rounded quotient if that fits 32 bits, and also when rounding up
  // carries out of all 32 bits: then it stores 0.
  method MulDiv(a: int, times: int, divisor: int) returns (res: Option<int>)
    requires IsInt32(a) && IsInt32(times) && IsInt32(divisor)
    ensures res == Result(a, times, divisor)
  {
    if divisor != 0 {
      if a == 0 || times == 0 {
        return Some(0);
      }
      var negative := false;
      if a < 0 {
        negative := true;
      }
      var A := Magnitude(a);
      if times < 0 {
        negative := !negative;
      }
      var T := Magnitude(times);
      if divisor < 0 {
        negative := !negative;
      }
      var D := Magnitude(divisor);
      hide Times, Quotient, Remainder, Shr, Pow2, U32;
      var s32, s00 := Product(A, T);
      ghost var p := Times(A, T);
      ghost var high := s32;
      if s32 < D {
        var result;
        result, s00 := Divided(s32, s00, D);
        res := Deliver(result, s00, D, negative);
        return res;
      } else {
        TooLarge(p, D, high, s00);
      }
    }
    return None;
  }

  lemma Half(d: nat)
    ensures Shr(d, 1) == d / 2
  {
    Pow2Values();
  }

  lemma TooLarge(p: nat, d: nat, high: nat, low: nat)
    requires p == TWO32 * high + low && high >= d > 0
    ensures Quotient(p, d) >= TWO32
  {
    DivMod(p, d);
    if Quotient(p, d) < TWO32 {
      MulUpTo(d, d, Quotient(p, d), TWO32 - 1);
    }
  }

  // What png_muldiv returns and stores
  ghost function Result(a: int, times: int, divisor: int): Option<int> {
    if divisor == 0 then None
    else if a == 0 || times == 0 then Some(0)
    else
      var p, d := Times(Abs(a), Abs(times)), Abs(divisor);
      InRange(Negative(a, times, divisor), Quotient(p, d), Rounded(p, d))
  }

  // --------------------------------------------------------------------- how good it is

  // The error is at most half the divisor, rounded up.
  lemma RoundedError(p: nat, d: nat)
    requires d > 0
    ensures Abs(Times(d, Rounded(p, d)) - p) <= (d + 1) / 2
  {
    Roundings(p, d);
  }

  // It is nearest to the exact quotient unless an odd divisor leaves the rounded half.
  lemma NearestExactly(p: nat, d: nat)
    requires d > 0
    ensures 2 * Abs(Times(d, Rounded(p, d)) - p) <= d <==> d % 2 == 0 || Remainder(p, d) != d / 2
  {
    Roundings(p, d);
  }

  lemma Roundings(p: nat, d: nat)
    requires d > 0
    ensures Times(d, Quotient(p, d)) == p - Remainder(p, d) && Remainder(p, d) < d
    ensures Times(d, Quotient(p, d) + 1) == p - Remainder(p, d) + d
  {
    DivMod(p, d);
    assert d * (p / d + 1) == d * (p / d) + d;
  }

  // The carry out of 32 bits
  ghost predicate Carries(a: int, times: int, divisor: int)
    requires divisor != 0
  {
    Rounded(Times(Abs(a), Abs(times)), Abs(divisor)) == TWO32
  }

  // The stored result, with its sign, is as near to a * times / divisor as that.
  lemma StoredError(a: int, times: int, divisor: int)
    requires divisor != 0 && Result(a, times, divisor).Some? && !Carries(a, times, divisor)
    ensures
      var error := Abs(Times(divisor, Result(a, times, divisor).value) - Times(a, times));
      var half := Remainder(Times(Abs(a), Abs(times)), Abs(divisor)) == Abs(divisor) / 2;
      && error <= (Abs(divisor) + 1) / 2
      && (2 * error <= Abs(divisor) <==> a == 0 || times == 0 || divisor % 2 == 0 || !half)
  {
    var d := Abs(divisor);
    if a == 0 || times == 0 {
      SignOfProduct(a, times);
      SignOfProduct(divisor, 0);
    } else {
      hide Rounded, Remainder, Times, Quotient;
      var p := Times(Abs(a), Abs(times));
      SignOfProduct(a, times);
      SignOfProduct(divisor, Result(a, times, divisor).value);
      RoundedError(p, d);
      NearestExactly(p, d);
    }
  }

  lemma SignOfProduct(x: int, y: int)
    ensures Times(x, y) == WithSign((x < 0) != (y < 0), Times(Abs(x), Abs(y)))
    ensures x == 0 || y == 0 ==> Times(x, y) == 0
  {
    if x < 0 {
      assert (-x) * y == -(x * y) && (-x) * (-y) == x * y;
    } else {
      assert x * (-y) == -(x * y);
    }
  }

  // floor(n / d + .5), what the branch with floating point computes
  function HalfUp(n: int, d: int): int
    requires d > 0
  {
    (2 * n + d) / (2 * d)
  }

  lemma HalfUpParts(p: int, d: nat)
    requires p >= 0 && d > 0
    ensures HalfUp(p, d) == Quotient(p, d) + if 2 * Remainder(p, d) >= d then 1 else 0
    ensures HalfUp(WithSign(true, p), d) ==
              WithSign(true, Quotient(p, d) + if 2 * Remainder(p, d) > d then 1 else 0)
  {
    Roundings(p, d);
    var q: int, r: int := Quotient(p, d), Remainder(p, d);
    TimesNegated(d, q);
    TimesNegated(d, q + 1);
    hide Quotient, Remainder, Times;
    if 2 * r >= d {
      HalfUpIs(p, d, q + 1, 2 * r - d);
    } else {
      HalfUpIs(p, d, q, 2 * r + d);
    }
    if 2 * r > d {
      HalfUpIs(-p, d, -q - 1, 3 * d - 2 * r);
    } else {
      HalfUpIs(-p, d, -q, d - 2 * r);
    }
  }

  lemma TimesNegated(d: int, q: int)
    ensures Times(d, -q) == -Times(d, q)
  {
  }

  lemma HalfUpIs(n: int, d: int, h: int, rest: int)
    requires d > 0 && 0 <= rest < 2 * d && 2 * Times(d, h) + rest == 2 * n + d
    ensures HalfUp(n, d) == h
  {
    assert 2 * d * h == 2 * (d * h);
    Divide(2 * n + d, 2 * d, h, rest);
  }

  // The two branches of png_muldiv agree unless the remainder is exactly the half of the
  // divisor as the integer branch takes it; for an even divisor only negative results differ.
  lemma BranchesAgree(p: nat, d: nat, negative: bool)
    requires d > 0
    ensures WithSign(negative, Rounded(p, d)) == HalfUp(WithSign(negative, p), d) <==>
      Remainder(p, d) != d / 2 || (d % 2 == 0 && !negative)
  {
    HalfUpParts(p, d);
  }

  // The carry out of 32 bits happens: 65535 * 65537 / 1 is stored as 0.
  lemma CarryIsLost()
    ensures Result(65535, 65537, 1) == Some(0)
    ensures Rounded(65535 * 65537, 1) == TWO32
  {
    Divide(TWO32 - 1, 1, TWO32 - 1, 0);
  }

  // A divisor of one is never exact.
  lemma ByOneIsOff(a: int, times: int)
    requires a != 0 && times != 0 && IsInt32(Times(a, times))
    ensures Result(a, times, 1) != Some(Times(a, times))
  {
    var p := Times(Abs(a), Abs(times));
    Divide(p, 1, p, 0);
    assert p == Abs(a * times) > 0;
  }
}
