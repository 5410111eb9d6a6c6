// The digits of a number in some base, the lowest being digit 0.
module Digits {
  import opened Bits

  const ALPHABET := "0123456789ABCDEF"

  predicate IsBase(b: nat) {
    b == 10 || b == 16
  }

  function DigitAt(b: nat, n: nat, k: nat): (d: nat)
    requires IsBase(b)
    ensures d < b
  {
    if k == 0 then n % b else DigitAt(b, n / b, k - 1)
  }

  // How many digits the number has; zero has none.
  function Length(b: nat, n: nat): nat
    requires IsBase(b)
  {
    if n == 0 then 0 else 1 + Length(b, n / b)
  }

  // The number without its lowest k digits
  function Rest(b: nat, n: nat, k: nat): nat
    requires IsBase(b)
  {
    if k == 0 then n else Rest(b, n / b, k - 1)
  }

  // The lowest of the first c digits that is not zero, c if there is none
  function LowBelow(b: nat, n: nat, c: nat): (k: nat)
    requires IsBase(b)
    ensures k <= c
  {
    if c == 0 || n % b != 0 then 0 else 1 + LowBelow(b, n / b, c - 1)
  }

  // The digits from top - 1 down to bottom as a text
  function High(b: nat, n: nat, top: nat, bottom: nat): (t: string)
    requires IsBase(b)
    ensures |t| == if top <= bottom then 0 else top - bottom
  {
    if top <= bottom then "" else [ALPHABET[DigitAt(b, n, top - 1)]] + High(b, n, top - 1, bottom)
  }

  lemma {:induction false} RestStep(b: nat, n: nat, k: nat)
    requires IsBase(b)
    ensures Rest(b, n, k + 1) == Rest(b, n, k) / b
    ensures Rest(b, n, k) % b == DigitAt(b, n, k)
  {
    if k > 0 {
      RestStep(b, n / b, k - 1);
    }
  }

  lemma {:induction false} RestIsZero(b: nat, n: nat, k: nat)
    requires IsBase(b)
    ensures Rest(b, n, k) == 0 <==> Length(b, n) <= k
  {
    if k > 0 && n > 0 {
      RestIsZero(b, n / b, k - 1);
    } else if n == 0 {
      ZeroRest(b, k);
    }
  }

  lemma {:induction false} ZeroRest(b: nat, k: nat)
    requires IsBase(b)
    ensures Rest(b, 0, k) == 0 && DigitAt(b, 0, k) == 0
  {
    if k > 0 {
      ZeroRest(b, k - 1);
    }
  }

  lemma {:induction false} DigitBeyond(b: nat, n: nat, k: nat)
    requires IsBase(b) && Length(b, n) <= k
    ensures DigitAt(b, n, k) == 0
  {
    RestIsZero(b, n, k);
    RestStep(b, n, k);
  }

  lemma {:induction false} LowStep(b: nat, n: nat, c: nat)
    requires IsBase(b)
    ensures LowBelow(b, n, c + 1) ==
              if LowBelow(b, n, c) < c || DigitAt(b, n, c) != 0 then LowBelow(b, n, c) else c + 1
  {
    if c > 0 && n % b == 0 {
      LowStep(b, n / b, c - 1);
    }
  }

  lemma {:induction false} LowDigit(b: nat, n: nat, c: nat)
    requires IsBase(b)
    ensures LowBelow(b, n, c) < c ==> DigitAt(b, n, LowBelow(b, n, c)) != 0
    ensures forall k :: 0 <= k < LowBelow(b, n, c) ==> DigitAt(b, n, k) == 0
  {
    if c > 0 && n % b == 0 {
      LowDigit(b, n / b, c - 1);
      forall k | 0 <= k < LowBelow(b, n, c) ensures DigitAt(b, n, k) == 0 {
        if k > 0 {
          assert DigitAt(b, n / b, k - 1) == 0;
        }
      }
    }
  }

  lemma {:induction false} LowUnique(b: nat, n: nat, c: nat, d: nat)
    requires IsBase(b) && LowBelow(b, n, c) < c
    ensures LowBelow(b, n, d) == if LowBelow(b, n, c) < d then LowBelow(b, n, c) else d
  {
    if d > 0 && n % b == 0 {
      LowUnique(b, n / b, c - 1, d - 1);
    }
  }

  lemma {:induction false} LowOfZero(b: nat, n: nat, c: nat)
    requires IsBase(b)
    ensures LowBelow(b, n, c) < c ==> n != 0
    ensures n != 0 && Length(b, n) <= c ==> LowBelow(b, n, c) < c
  {
    if c > 0 && n % b == 0 {
      LowOfZero(b, n / b, c - 1);
    }
  }

  // --------------------------------------------------------------------- texts

  lemma {:induction false} HighSplit(b: nat, n: nat, top: nat, mid: nat, bottom: nat)
    requires IsBase(b) && bottom <= mid <= top
    ensures High(b, n, top, bottom) == High(b, n, top, mid) + High(b, n, mid, bottom)
    decreases top
  {
    if mid < top {
      HighSplit(b, n, top - 1, mid, bottom);
    }
  }

  lemma {:induction false} HighAt(b: nat, n: nat, top: nat, bottom: nat, i: nat)
    requires IsBase(b) && i < |High(b, n, top, bottom)|
    ensures High(b, n, top, bottom)[i] == ALPHABET[DigitAt(b, n, top - 1 - i)]
    decreases top
  {
    hide DigitAt;
    if i > 0 {
      HighAt(b, n, top - 1, bottom, i - 1);
    }
  }

  lemma {:induction false} HighDigits(n: nat, top: nat, bottom: nat)
    ensures forall i :: 0 <= i < |High(10, n, top, bottom)| ==> '0' <= High(10, n, top, bottom)[i] <= '9'
  {
    forall i | 0 <= i < |High(10, n, top, bottom)| ensures '0' <= High(10, n, top, bottom)[i] <= '9' {
      HighAt(10, n, top, bottom, i);
    }
  }

  // --------------------------------------------------------------------- values

  function Pow10(k: nat): (p: nat)
    ensures p > 0
  {
    if k == 0 then 1 else 10 * Pow10(k - 1)
  }

  lemma TenDigits()
    ensures Pow10(10) == 10000000000
  {
    assert Pow10(5) == 100000;
  }

  // The number a decimal text stands for
  function IntOf(s: string): int {
    if s == "" then 0 else (s[0] as int - '0' as int) * Pow10(|s| - 1) + IntOf(s[1..])
  }

  // The number of the decimal digits from top - 1 down to bottom
  function Val(n: nat, top: nat, bottom: nat): nat {
    if top <= bottom then 0 else Weighted(DigitAt(10, n, top - 1), top - 1 - bottom) + Val(n, top - 1, bottom)
  }

  function Weighted(d: nat, k: nat): nat {
    d * Pow10(k)
  }

  lemma {:induction false} IntOfHigh(n: nat, top: nat, bottom: nat)
    ensures IntOf(High(10, n, top, bottom)) == Val(n, top, bottom)
    decreases top
  {
    if bottom < top {
      IntOfHigh(n, top - 1, bottom);
      var t := High(10, n, top, bottom);
      assert t[1..] == High(10, n, top - 1, bottom);
      assert ALPHABET[DigitAt(10, n, top - 1)] as int - '0' as int == DigitAt(10, n, top - 1);
    }
  }

  // Digits below are ten times less.
  lemma {:induction false} ValSplit(n: nat, top: nat, mid: nat, bottom: nat)
    requires bottom <= mid <= top
    ensures Val(n, top, bottom) == Weighted(Val(n, top, mid), mid - bottom) + Val(n, mid, bottom)
    decreases top
  {
    if mid < top {
      ValSplit(n, top - 1, mid, bottom);
      Shifted(DigitAt(10, n, top - 1), top - 1 - mid, mid - bottom, Val(n, top - 1, mid));
    }
  }

  lemma Shifted(d: nat, j: nat, k: nat, v: nat)
    ensures Weighted(Weighted(d, j) + v, k) == Weighted(d, j + k) + Weighted(v, k)
  {
    Pow10Sum(j, k);
    var p, q := Pow10(j), Pow10(k);
    assert (d * p + v) * q == d * p * q + v * q;
    assert d * p * q == d * (p * q);
  }

  lemma {:induction false} Pow10Sum(j: nat, k: nat)
    ensures Pow10(j + k) == Pow10(j) * Pow10(k)
  {
    if j > 0 {
      Pow10Sum(j - 1, k);
    }
  }

  lemma TenTimes(d: nat, k: nat)
    ensures Weighted(d, k + 1) == 10 * Weighted(d, k) && Weighted(d, 0) == d
  {
    var p := Pow10(k);
    assert Pow10(k + 1) == 10 * p;
    assert d * (10 * p) == 10 * (d * p);
  }

  lemma {:induction false} PeelLow(n: nat, top: nat)
    requires top > 0
    ensures Val(n, top, 0) == 10 * Val(n / 10, top - 1, 0) + n % 10
  {
    hide Weighted, Pow10;
    if top > 1 {
      PeelLow(n, top - 1);
      TenTimes(DigitAt(10, n / 10, top - 2), top - 2);
    } else {
      TenTimes(n % 10, 0);
    }
  }

  // All the digits make the number.
  lemma {:induction false} ValIsNumber(n: nat, top: nat)
    requires Length(10, n) <= top
    ensures Val(n, top, 0) == n
    decreases top
  {
    if top > 0 {
      PeelLow(n, top);
      if n > 0 {
        ValIsNumber(n / 10, top - 1);
      } else {
        ValIsNumber(0, top - 1);
      }
    }
  }

  lemma {:induction false} ValOfZeros(n: nat, top: nat, bottom: nat)
    requires forall k :: bottom <= k < top ==> DigitAt(10, n, k) == 0
    ensures Val(n, top, bottom) == 0
    decreases top
  {
    if bottom < top {
      ValOfZeros(n, top - 1, bottom);
    }
  }

  lemma {:induction false} LengthBound(n: nat, k: nat)
    requires n < Pow10(k)
    ensures Length(10, n) <= k
  {
    if n > 0 && k > 0 {
      LengthBound(n / 10, k - 1);
    }
  }

  lemma {:induction false} DivisibleExactly(n: nat, k: nat)
    ensures n % Pow10(k) == 0 <==> LowBelow(10, n, k) == k
  {
    if k > 0 {
      DivisibleExactly(n / 10, k - 1);
      var p := Pow10(k - 1);
      DivMod(n / 10, p);
      var q, r := n / 10 / p, n / 10 % p;
      assert (10 * p) * q == 10 * (p * q);
      Divide(n, 10 * p, q, 10 * r + n % 10);
    } else {
      Divide(n, 1, n, 0);
    }
  }
}
