// A fixed-point number as a decimal text (3rdParty/libpng/png.c:3063-3130).
module FixedAscii {
  import opened Bits
  import opened CText
  import opened MulDiv
  import opened Digits
  import F = FpNumber

  // The parts of the text: the digits above the fifth, and those below it without the zeros
  // at the end
  function PartsOf(fp: int): F.Parts {
    var n := Abs(fp);
    F.Parts(if fp < 0 then "-" else "",
            if n == 0 then "0" else High(10, n, Length(10, n), 5),
            LowBelow(10, n, 5) < 5,
            High(10, n, 5, LowBelow(10, n, 5)),
            "", "", "")
  }

  function TextOf(fp: int): string {
    F.Text(PartsOf(fp))
  }

  // --------------------------------------------------------------------- what the text means

  // The parts stand for fp/100000.
  predicate Denotes(p: F.Parts, fp: int) {
    && p.e == "" && (p.sign == "-" <==> fp < 0) && p.sign != "+"
    && |p.fraction| <= 5
    && TimesPow10(IntOf(p.whole), 5) + TimesPow10(IntOf(p.fraction), 5 - |p.fraction|) == Abs(fp)
  }

  function TimesPow10(d: int, k: nat): int {
    d * Pow10(k)
  }

  lemma DenotesFp(fp: int)
    requires IsInt32(fp)
    ensures Denotes(PartsOf(fp), fp)
  {
    var n := Abs(fp);
    if n == 0 {
      LowOfZero(10, 0, 5);
      assert IntOf("0") == 0 && IntOf("") == 0;
    } else {
      ValueOfParts(n);
      IntOfHigh(n, Length(10, n), 5);
      IntOfHigh(n, 5, LowBelow(10, n, 5));
      hide High, Val, Length, LowBelow, Pow10, IntOf;
    }
  }

  lemma ValueOfParts(n: nat)
    requires n != 0
    ensures TimesPow10(Val(n, Length(10, n), 5), 5) + TimesPow10(Val(n, 5, LowBelow(10, n, 5)), LowBelow(10, n, 5)) == n
  {
    var low, top := LowBelow(10, n, 5), if Length(10, n) < 5 then 5 else Length(10, n);
    LowDigit(10, n, 5);
    ValOfZeros(n, low, 0);
    ValSplit(n, 5, low, 0);
    ValIsNumber(n, top);
    ValSplit(n, top, 5, 0);
    assert top > Length(10, n) ==> Val(n, Length(10, n), 5) == 0 && Val(n, top, 5) == 0;
    hide Length, LowBelow, Val, Pow10;
  }

  lemma Sizes(fp: int)
    requires IsInt32(fp)
    ensures Length(10, Abs(fp)) <= 10 && |TextOf(fp)| <= 12
  {
    TenDigits();
    LengthBound(Abs(fp), 10);
    hide Length, LowBelow, High, Pow10;
  }

  lemma TextEnds(fp: int)
    requires IsInt32(fp)
    ensures F.Ends(PartsOf(fp))
  {
    var n := Abs(fp);
    HighDigits(n, Length(10, n), 5);
    HighDigits(n, 5, LowBelow(10, n, 5));
    LowOfZero(10, n, 5);
    hide Length, LowBelow, High;
  }

  // It is a complete number with at most 12 characters, and no zero ends its fraction.
  lemma TextIsNumber(fp: int)
    requires IsInt32(fp)
    ensures F.Ends(PartsOf(fp)) && F.IsNumber(TextOf(fp))
    ensures |TextOf(fp)| <= 12
    ensures var t := PartsOf(fp).fraction; t != "" ==> t[|t| - 1] != '0'
  {
    TextEnds(fp);
    Sizes(fp);
    FractionEnd(Abs(fp));
    EndsIsNumber(PartsOf(fp));
    hide F.Ends, F.Text, F.IsNumber, LowBelow, High;
  }

  lemma EndsIsNumber(p: F.Parts)
    requires F.Ends(p)
    ensures F.IsNumber(F.Text(p))
  {
    hide F.Ends, F.Text;
  }

  lemma FractionEnd(n: nat)
    ensures var t := High(10, n, 5, LowBelow(10, n, 5)); t != "" ==> t[|t| - 1] != '0'
  {
    var low := LowBelow(10, n, 5);
    if low < 5 {
      LowDigit(10, n, 5);
      HighAt(10, n, 5, low, 4 - low);
      hide High, LowBelow, DigitAt;
    }
  }

  // png_check_fp_string accepts it.
  lemma TextIsAccepted(fp: int)
    requires IsInt32(fp)
    ensures F.IsNumber(F.UpToNul(TextOf(fp)))
  {
    TextIsNumber(fp);
    F.NumberNulFree(PartsOf(fp));
    F.UpToNulIs(TextOf(fp), |TextOf(fp)|);
    assert TextOf(fp)[..|TextOf(fp)|] == TextOf(fp);
  }

  // --------------------------------------------------------------------- the operation

  // The lowest digits of the number, the lowest first
  ghost predicate Spelled(digits: array<char>, ndigits: nat, num: nat)
    requires ndigits <= digits.Length
    reads digits
  {
    forall k :: 0 <= k < ndigits ==> digits[k] == ALPHABET[DigitAt(10, num, k)]
  }

  lemma SpelledFewer(digits: array<char>, ndigits: nat, left: nat, num: nat)
    requires left <= ndigits <= digits.Length && Spelled(digits, ndigits, num)
    ensures Spelled(digits, left, num)
  {
  }

  // Split the low digits off; first is the first one that is not zero, counted from 1.
  method SplitDigits(num: nat, digits: array<char>) returns (ndigits: nat, first: nat)
    requires num <= TWO31 && digits.Length == 10
    modifies digits
    ensures ndigits == Length(10, num) <= 10
    ensures Spelled(digits, ndigits, num)
    ensures first == if LowBelow(10, num, ndigits) < ndigits then LowBelow(10, num, ndigits) + 1 else 16
  {
    hide DigitAt, Length, LowBelow, Rest, Pow10, Spelled;
    TenDigits();
    var n := num;
    ndigits, first := 0, 16;
    RestStart(num);
    assert Spelled(digits, 0, num) by { SpelledNone(digits, num); }
    while n != 0
      invariant n == Rest(10, num, ndigits) && ndigits <= 10 && n < Pow10(10 - ndigits)
      invariant Spelled(digits, ndigits, num)
      invariant first == if LowBelow(10, num, ndigits) < ndigits then LowBelow(10, num, ndigits) + 1 else 16
      invariant ndigits == 0 || Rest(10, num, ndigits - 1) != 0
      decreases n
    {
      RestStep(10, num, ndigits);
      LowStep(10, num, ndigits);
      PowerLeft(n, ndigits);
      var tmp := n / 10;
      n := n - tmp * 10;
      ghost var before := digits[..ndigits];
      SpelledAs(digits, ndigits, num);
      digits[ndigits] := (48 + n) as char;
      assert digits[..ndigits] == before;
      SpelledFrom(digits, ndigits, num);
      SpelledMore(digits, ndigits, num);
      ndigits := ndigits + 1;
      if first == 16 && n > 0 {
        first := ndigits;
      }
      n := tmp;
    }
    RestIsZero(10, num, ndigits);
    if ndigits > 0 {
      RestIsZero(10, num, ndigits - 1);
    }
  }

  lemma RestStart(n: nat)
    ensures Rest(10, n, 0) == n && LowBelow(10, n, 0) == 0
  {
  }

  lemma PowerLeft(n: nat, ndigits: nat)
    requires ndigits <= 10 && 0 < n < Pow10(10 - ndigits)
    ensures ndigits < 10 && n / 10 < Pow10(10 - (ndigits + 1))
  {
    assert Pow10(0) == 1;
    if ndigits < 10 {
      assert Pow10(10 - ndigits) == 10 * Pow10(10 - ndigits - 1);
    }
  }

  // The digits as a sequence
  ghost function Low(num: nat, ndigits: nat): string {
    seq(ndigits, k requires 0 <= k < ndigits => ALPHABET[DigitAt(10, num, k)])
  }

  lemma SpelledAs(digits: array<char>, ndigits: nat, num: nat)
    requires ndigits <= digits.Length && Spelled(digits, ndigits, num)
    ensures digits[..ndigits] == Low(num, ndigits)
  {
    hide DigitAt;
  }

  lemma SpelledFrom(digits: array<char>, ndigits: nat, num: nat)
    requires ndigits <= digits.Length && digits[..ndigits] == Low(num, ndigits)
    ensures Spelled(digits, ndigits, num)
  {
    hide DigitAt;
    forall k | 0 <= k < ndigits ensures digits[k] == ALPHABET[DigitAt(10, num, k)] {
      assert digits[k] == digits[..ndigits][k];
    }
  }

  lemma SpelledNone(digits: array<char>, num: nat)
    ensures Spelled(digits, 0, num)
  {
  }

  lemma SpelledMore(digits: array<char>, ndigits: nat, num: nat)
    requires ndigits < digits.Length && digits[ndigits] == (48 + DigitAt(10, num, ndigits)) as char
    requires Spelled(digits, ndigits, num)
    ensures Spelled(digits, ndigits + 1, num)
  {
    hide DigitAt;
  }

  // The digits are copied from the highest one down until stop of them are left.
  method EmitDown(ascii: array<char>, at: nat, digits: array<char>, ndigits: nat, stop: nat, ghost num: nat)
    returns (end: nat, left: nat)
    requires ndigits <= digits.Length && ascii != digits && at <= ascii.Length && at + ndigits <= ascii.Length + stop
    requires Spelled(digits, ndigits, num)
    modifies ascii
    ensures left == if ndigits > stop then stop else ndigits
    ensures end == at + (ndigits - left) && ascii[..end] == old(ascii[..at]) + High(10, num, ndigits, stop)
    ensures forall k :: end <= k < ascii.Length ==> ascii[k] == old(ascii[k])
  {
    hide DigitAt, High;
    end, left := at, ndigits;
    HighSplit(10, num, ndigits, ndigits, if stop < ndigits then stop else ndigits);
    while left > stop
      invariant left <= ndigits && end == at + (ndigits - left) && (left >= stop || left == ndigits)
      invariant ascii[..end] == old(ascii[..at]) + High(10, num, ndigits, left)
      invariant forall k :: end <= k < ascii.Length ==> ascii[k] == old(ascii[k])
    {
      left := left - 1;
      HighSplit(10, num, ndigits, left + 1, left);
      HighOne(num, left);
      ascii[end] := digits[left];
      end := end + 1;
    }
    HighNone(num, ndigits, stop);
  }

  lemma HighOne(n: nat, k: nat)
    ensures High(10, n, k + 1, k) == [ALPHABET[DigitAt(10, n, k)]]
  {
    assert High(10, n, k, k) == "";
  }

  lemma HighNone(n: nat, top: nat, bottom: nat)
    ensures top <= bottom ==> High(10, n, top, bottom) == ""
    ensures High(10, n, top, top) == ""
  {
  }

  // The zeros between the point and a short number
  method EmitZeros(ascii: array<char>, at: nat, ndigits: nat, ghost num: nat) returns (end: nat)
    requires at + 5 - ndigits <= ascii.Length && (ndigits == 5 || ndigits == Length(10, num) < 5)
    modifies ascii
    ensures end == at + (5 - ndigits) && ascii[..end] == old(ascii[..at]) + High(10, num, 5, ndigits)
    ensures forall k :: end <= k < ascii.Length ==> ascii[k] == old(ascii[k])
  {
    hide DigitAt, High, Length;
    end := at;
    var i := 5;
    HighNone(num, 5, 5);
    while ndigits < i
      invariant ndigits <= i <= 5 && end == at + (5 - i)
      invariant ascii[..end] == old(ascii[..at]) + High(10, num, 5, i)
      invariant forall k :: end <= k < ascii.Length ==> ascii[k] == old(ascii[k])
    {
      DigitBeyond(10, num, i - 1);
      HighSplit(10, num, 5, i, i - 1);
      HighOne(num, i - 1);
      ascii[end] := 48 as char;
      end, i := end + 1, i - 1;
    }
  }

  // It succeeds if there is room for the longest text.
  method AsciiFromFixed(ascii: array<char>, size: nat, fp: int) returns (ok: bool)
    requires IsInt32(fp) && size <= ascii.Length
    modifies ascii
    ensures ok <==> size > 12
    ensures ok ==> |TextOf(fp)| < size && ascii[..|TextOf(fp)| + 1] == TextOf(fp) + [NUL]
    ensures ascii[size..] == old(ascii[size..]) && (!ok ==> ascii[..] == old(ascii[..]))
  {
    hide DigitAt, High, Length, LowBelow, TextOf, U32, Spelled;
    if size > 12 {
      var at, num := 0, fp;
      if fp < 0 {
        ascii[0] := 45 as char;
        at, num := 1, U32(-fp);
      }
      if num <= TWO31 {
        Sizes(fp);
        var digits := new char[10];
        var ndigits, first := SplitDigits(num, digits);
        var end := EmitNumber(ascii, at, digits, ndigits, first, num);
        TextSplit(fp);
        ascii[end] := NUL;
        assert ascii[..end] == TextOf(fp);
        assert ascii[..end + 1] == ascii[..end] + [NUL];
        return true;
      }
    }
    return false;
  }

  // The point and the digits behind it
  function PointText(n: nat): string {
    if LowBelow(10, n, 5) < 5 then "." + High(10, n, 5, LowBelow(10, n, 5)) else ""
  }

  // What follows the sign
  function Unsigned(n: nat): string {
    (if n == 0 then "0" else High(10, n, Length(10, n), 5)) + PointText(n)
  }

  lemma TextSplit(fp: int)
    ensures TextOf(fp) == (if fp < 0 then "-" else "") + Unsigned(Abs(fp))
    ensures |Unsigned(Abs(fp))| <= |TextOf(fp)|
  {
    var p := PartsOf(fp);
    assert p.fraction == High(10, Abs(fp), 5, LowBelow(10, Abs(fp), 5));
    assert PointText(Abs(fp)) == F.Point(p.dot) + p.fraction;
    assert Unsigned(Abs(fp)) == p.whole + PointText(Abs(fp));
    hide High, LowBelow, Length, PointText, Unsigned;
    Associate(p.whole, F.Point(p.dot), p.fraction);
    Associate(p.sign, p.whole, F.Point(p.dot) + p.fraction);
    Associate(p.sign, p.whole, F.Point(p.dot));
    Associate(p.sign + p.whole, F.Point(p.dot), p.fraction);
    Nothing(TextOf(fp));
  }

  method EmitNumber(ascii: array<char>, at: nat, digits: array<char>, ndigits: nat, first: nat, ghost num: nat)
    returns (end: nat)
    requires digits.Length == 10 && ascii != digits && at <= 1 && ascii.Length > 12
    requires ndigits == Length(10, num) <= 10
    requires Spelled(digits, ndigits, num)
    requires first == if LowBelow(10, num, ndigits) < ndigits then LowBelow(10, num, ndigits) + 1 else 16
    modifies ascii
    ensures end == at + |Unsigned(num)| <= 12
    ensures ascii[..end] == old(ascii[..at]) + Unsigned(num)
    ensures forall k :: end <= k < ascii.Length ==> ascii[k] == old(ascii[k])
  {
    UnsignedParts(num);
    FirstDigit(num, ndigits, first);
    hide DigitAt, High, Length, LowBelow, PointText, Unsigned, Spelled;
    end := at;
    if ndigits > 0 {
      end := EmitNonzero(ascii, end, digits, ndigits, first, num);
    } else {
      ascii[end] := 48 as char;
      end := end + 1;
    }
  }

  method EmitNonzero(ascii: array<char>, at: nat, digits: array<char>, ndigits: nat, first: nat, ghost num: nat)
    returns (end: nat)
    requires digits.Length == 10 && ascii != digits && at <= 1 && ascii.Length > 12
    requires 0 < ndigits == Length(10, num) <= 10 && num != 0
    requires Spelled(digits, ndigits, num)
    requires 1 <= first <= ndigits && LowBelow(10, num, 5) == if first <= 5 then first - 1 else 5
    modifies ascii
    ensures end <= 12
    ensures ascii[..end] == old(ascii[..at]) + (High(10, num, ndigits, 5) + PointText(num))
    ensures forall k :: end <= k < ascii.Length ==> ascii[k] == old(ascii[k])
  {
    hide DigitAt, High, Length, LowBelow, PointText, Spelled;
    ghost var before := ascii[..at];
    var left;
    end, left := EmitDown(ascii, at, digits, ndigits, 5, num);
    assert end <= 6;
    SpelledFewer(digits, ndigits, left, num);
    end := EmitPoint(ascii, end, digits, left, first, num);
    assert before + High(10, num, ndigits, 5) + PointText(num) == before + (High(10, num, ndigits, 5) + PointText(num));
  }

  lemma UnsignedParts(n: nat)
    ensures n == 0 ==> Unsigned(n) == "0"
    ensures n != 0 ==> Unsigned(n) == High(10, n, Length(10, n), 5) + PointText(n)
    ensures |PointText(n)| <= 6 && (n == 0 <==> Length(10, n) == 0)
  {
    LowOfZero(10, n, 5);
    hide High, LowBelow;
  }

  lemma FirstDigit(n: nat, ndigits: nat, first: nat)
    requires ndigits == Length(10, n)
    requires first == if LowBelow(10, n, ndigits) < ndigits then LowBelow(10, n, ndigits) + 1 else 16
    ensures n != 0 ==> 1 <= first <= ndigits && LowBelow(10, n, 5) == if first <= 5 then first - 1 else 5
  {
    if n != 0 {
      LowOfZero(10, n, ndigits);
      LowUnique(10, n, ndigits, 5);
    }
  }

  method EmitPoint(ascii: array<char>, at: nat, digits: array<char>, ndigits: nat, first: nat, ghost num: nat)
    returns (end: nat)
    requires digits.Length == 10 && ascii != digits && at + 6 <= ascii.Length
    requires num > 0 && (ndigits == 5 || ndigits == Length(10, num) < 5)
    requires first - 1 < ndigits || first > 5
    requires LowBelow(10, num, 5) == if 1 <= first <= 5 then first - 1 else 5
    requires first >= 1
    requires Spelled(digits, ndigits, num)
    modifies ascii
    ensures end == at + |PointText(num)| <= at + 6 && ascii[..end] == old(ascii[..at]) + PointText(num)
    ensures forall k :: end <= k < ascii.Length ==> ascii[k] == old(ascii[k])
  {
    hide DigitAt, High, Length, LowBelow, Spelled;
    end := at;
    if first <= 5 {
      ascii[end] := 46 as char;
      end := end + 1;
      ghost var front := ascii[..end];
      assert front == old(ascii[..at]) + ".";
      end := EmitFraction(ascii, end, digits, ndigits, first, num);
      assert old(ascii[..at]) + "." + High(10, num, 5, first - 1) == old(ascii[..at]) + PointText(num);
    }
  }

  // Leading zeros, then the digits down to first
  method EmitFraction(ascii: array<char>, at: nat, digits: array<char>, ndigits: nat, first: nat, ghost num: nat)
    returns (end: nat)
    requires digits.Length == 10 && ascii != digits && at + 5 <= ascii.Length
    requires (ndigits == 5 || ndigits == Length(10, num) < 5) && 1 <= first <= ndigits
    requires Spelled(digits, ndigits, num)
    modifies ascii
    ensures end == at + (6 - first) && ascii[..end] == old(ascii[..at]) + High(10, num, 5, first - 1)
    ensures forall k :: end <= k < ascii.Length ==> ascii[k] == old(ascii[k])
  {
    hide DigitAt, High, Length, Spelled;
    ghost var before := ascii[..at];
    end := EmitZeros(ascii, at, ndigits, num);
    HighSplit(10, num, 5, ndigits, first - 1);
    var left;
    end, left := EmitDown(ascii, end, digits, ndigits, first - 1, num);
    Associate(before, High(10, num, 5, ndigits), High(10, num, ndigits, first - 1));
  }
}
