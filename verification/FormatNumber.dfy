// png_format_number, which fills a buffer from its end (3rdParty/libpng/pngerror.c:132-206).
module FormatNumber {
  import opened Bits
  import opened CText
  import opened MulDiv
  import opened Digits
  import FixedAscii

  datatype Format = U | U02 | X | X02 | Fixed | Unknown

  function Base(f: Format): nat {
    if f == X || f == X02 then 16 else 10
  }

  function MinCount(f: Format): nat {
    if f == Fixed then 5 else if f == U02 || f == X02 then 2 else 1
  }

  // The lowest c digits without the zeros at the end, with the point behind the fifth; true
  // zero is written when the fifth digit has been seen
  function FixedPart(n: nat, c: nat): string {
    var low := LowBelow(10, n, c);
    if c < 5 then High(10, n, c, low)
    else if low < 5 then High(10, n, c, 5) + ("." + High(10, n, 5, low))
    else if n == 0 then "0"
    else High(10, n, c, low)
  }

  // What is written for the lowest c digits
  function Part(f: Format, n: nat, c: nat): string {
    if f == Fixed then FixedPart(n, c) else if f == Unknown then "" else High(Base(f), n, c, 0)
  }

  function Count(f: Format, n: nat): nat {
    if Length(Base(f), n) < MinCount(f) then MinCount(f) else Length(Base(f), n)
  }

  function FormatText(f: Format, n: nat): string {
    Part(f, n, Count(f, n))
  }

  // As much of the end of a text as there is room for
  function Suffix(t: string, room: nat): string {
    if |t| <= room then t else t[|t| - room..]
  }

  // --------------------------------------------------------------------- one round

  function DigitText(f: Format, n: nat, c: nat): string {
    if f == Unknown || (f == Fixed && LowBelow(10, n, c) == c && DigitAt(10, n, c) == 0) then ""
    else [ALPHABET[DigitAt(Base(f), n, c)]]
  }

  function PointText(f: Format, n: nat, c: nat): string {
    if f != Fixed || c != 5 then ""
    else if LowBelow(10, n, c) < c then "."
    else if Rest(10, n, c) == 0 then "0"
    else ""
  }

  // The digit, and what is floated in front of the fraction
  lemma PartStep(f: Format, n: nat, c: nat)
    requires c < Count(f, n)
    ensures Part(f, n, c + 1) == PointText(f, n, c + 1) + (DigitText(f, n, c) + Part(f, n, c))
  {
    if f == Fixed {
      FixedStep(n, c);
    }
  }

  lemma FixedStep(n: nat, c: nat)
    requires c < Count(Fixed, n)
    ensures FixedPart(n, c + 1) == PointText(Fixed, n, c + 1) + (DigitText(Fixed, n, c) + FixedPart(n, c))
  {
    LowStep(10, n, c);
    HighStep(n, c, LowBelow(10, n, c));
    HighStep(n, c, 5);
    if c == 4 {
      LowOfZero(10, n, 5);
      RestIsZero(10, n, 5);
      FifthStep(n);
    } else if c < 4 {
      hide High, LowBelow, Rest, Length, DigitAt;
    } else {
      LaterStep(n, c);
    }
  }

  lemma FifthStep(n: nat)
    requires LowBelow(10, n, 5) == if LowBelow(10, n, 4) < 4 || DigitAt(10, n, 4) != 0 then LowBelow(10, n, 4) else 5
    requires n == 0 ==> LowBelow(10, n, 5) == 5
    requires Rest(10, n, 5) == 0 && LowBelow(10, n, 5) == 5 ==> n == 0
    requires n == 0 ==> Rest(10, n, 5) == 0
    ensures FixedPart(n, 5) == PointText(Fixed, n, 5) + (DigitText(Fixed, n, 4) + FixedPart(n, 4))
  {
    HighStep(n, 4, LowBelow(10, n, 4));
    hide High, LowBelow, Rest, Length, DigitAt;
  }

  lemma LaterStep(n: nat, c: nat)
    requires 5 <= c < Count(Fixed, n)
    ensures FixedPart(n, c + 1) == PointText(Fixed, n, c + 1) + (DigitText(Fixed, n, c) + FixedPart(n, c))
  {
    hide High, LowBelow, Rest, Length, DigitAt;
    LowStep(10, n, c);
    LaterLow(n, c);
    var low := LowBelow(10, n, c);
    HighStep(n, c, low);
    HighStep(n, c, 5);
    if low < 5 {
      Associate([ALPHABET[DigitAt(10, n, c)]], High(10, n, c, 5), "." + High(10, n, 5, low));
      Nothing([ALPHABET[DigitAt(10, n, c)]] + FixedPart(n, c));
    }
  }

  lemma LaterLow(n: nat, c: nat)
    requires 5 <= c < Count(Fixed, n)
    ensures n != 0 && (LowBelow(10, n, c + 1) < 5 <==> LowBelow(10, n, c) < 5)
  {
    LowStep(10, n, c);
  }

  lemma HighStep(n: nat, c: nat, bottom: nat)
    ensures bottom <= c ==> High(10, n, c + 1, bottom) == [ALPHABET[DigitAt(10, n, c)]] + High(10, n, c, bottom)
    ensures High(10, n, c + 1, c + 1) == "" && High(10, n, c, c) == ""
  {
  }

  // --------------------------------------------------------------------- the operation

  // The buffer from at on holds the end of t, as much as there is room for, up to stop.
  ghost predicate Written(buf: array<char>, start: nat, at: nat, stop: nat, t: string)
    reads buf
  {
    && start <= at < stop <= buf.Length && buf[stop - 1] == NUL
    && buf[at..stop - 1] == Suffix(t, stop - 1 - start)
  }

  // A character goes in front of those written.
  method Prepend(buf: array<char>, start: nat, end: nat, c: char, ghost stop: nat, ghost t: string)
    returns (at: nat)
    requires start < end && Written(buf, start, end, stop, t)
    modifies buf
    ensures start <= at == end - 1 && Written(buf, start, at, stop, [c] + t)
    ensures forall k :: 0 <= k < buf.Length && !(start <= k < stop) ==> buf[k] == old(buf[k])
  {
    at := end - 1;
    buf[at] := c;
    assert buf[at..stop - 1] == [c] + buf[end..stop - 1];
  }

  lemma Full(buf: array<char>, start: nat, stop: nat, s: string, t: string)
    requires Written(buf, start, start, stop, t)
    ensures Written(buf, start, start, stop, s + t)
  {
    assert |Suffix(t, stop - 1 - start)| == stop - 1 - start;
    assert (s + t)[|s + t| - (stop - 1 - start)..] == t[|t| - (stop - 1 - start)..];
  }

  lemma {:induction false} FullToTheEnd(buf: array<char>, start: nat, stop: nat, f: Format, n: nat, c: nat)
    requires c <= Count(f, n) && Written(buf, start, start, stop, Part(f, n, c))
    ensures Written(buf, start, start, stop, FormatText(f, n))
    decreases Count(f, n) - c
  {
    if c < Count(f, n) {
      PartStep(f, n, c);
      Full(buf, start, stop, DigitText(f, n, c), Part(f, n, c));
      Full(buf, start, stop, PointText(f, n, c + 1), DigitText(f, n, c) + Part(f, n, c));
      FullToTheEnd(buf, start, stop, f, n, c + 1);
    }
  }

  // Write the next digit, unless it is a zero at the end of a fixed-point number
  method WriteDigit(buf: array<char>, start: nat, end: nat, format: Format, number: nat, output: bool,
                    ghost stop: nat, ghost n: nat, ghost c: nat)
    returns (at: nat, rest: nat, output': bool)
    requires start < end && Written(buf, start, end, stop, Part(format, n, c))
    requires format != Unknown ==> number == Rest(Base(format), n, c)
    requires output <==> format == Fixed && LowBelow(10, n, c) < c
    modifies buf
    ensures start <= at && Written(buf, start, at, stop, DigitText(format, n, c) + Part(format, n, c))
    ensures format != Unknown ==> rest == Rest(Base(format), n, c + 1)
    ensures format == Unknown ==> rest == 0
    ensures output' <==> format == Fixed && LowBelow(10, n, c + 1) < c + 1
    ensures forall k :: 0 <= k < buf.Length && !(start <= k < stop) ==> buf[k] == old(buf[k])
  {
    RestStep(Base(format), n, c);
    LowStep(10, n, c);
    Nothing(Part(format, n, c));
    hide Rest, LowBelow, Part, DigitAt, Written;
    at, rest, output' := end, number, output;
    match format {
      case Fixed =>
        if output' || rest % 10 != 0 {
          at := Prepend(buf, start, at, ALPHABET[rest % 10], stop, Part(format, n, c));
          output' := true;
        }
        rest := rest / 10;
      case U | U02 =>
        at := Prepend(buf, start, at, ALPHABET[rest % 10], stop, Part(format, n, c));
        rest := rest / 10;
      case X | X02 =>
        at := Prepend(buf, start, at, ALPHABET[rest % 16], stop, Part(format, n, c));
        rest := rest / 16;
      case Unknown =>
        rest := 0;
    }
  }

  // The result is the place where the text begins; it lacks its front where there is no room.
  method FormatNumber(buf: array<char>, start: nat, stop: nat, format: Format, n: nat) returns (end: nat)
    requires start < stop <= buf.Length
    modifies buf
    ensures Written(buf, start, end, stop, FormatText(format, n))
    ensures forall k :: 0 <= k < buf.Length && !(start <= k < stop) ==> buf[k] == old(buf[k])
  {
    hide Part, DigitAt, LowBelow, Rest, Written, Length, DigitText, PointText, FormatText, Count, High;
    var count, mincount, output, number := 0, 1, false, n;
    end := stop - 1;
    buf[end] := NUL;
    NothingWritten(buf, start, stop, format, n);
    NoDigits(format, n);
    while end > start && (number != 0 || count < mincount)
      invariant Written(buf, start, end, stop, Part(format, n, count)) && start <= end
      invariant mincount == if count == 0 then 1 else MinCount(format)
      invariant number == if format != Unknown then Rest(Base(format), n, count) else if count == 0 then n else 0
      invariant output <==> format == Fixed && LowBelow(10, n, count) < count
      invariant count <= Count(format, n)
      invariant forall k :: 0 <= k < buf.Length && !(start <= k < stop) ==> buf[k] == old(buf[k])
      decreases Count(format, n) - count
    {
      CountGoesOn(format, n, count);
      mincount := MinCount(format);
      PartStep(format, n, count);
      end, number, output := WriteDigit(buf, start, end, format, number, output, stop, n, count);
      count := count + 1;
      end := WritePoint(buf, start, end, format, number, output, count, stop, n,
                        DigitText(format, n, count - 1) + Part(format, n, count - 1));
    }
    if end <= start {
      FullToTheEnd(buf, start, stop, format, n, count);
    } else {
      CountEnds(format, n, count);
    }
  }

  // The loop goes on as long as there are digits to count.
  lemma CountGoesOn(f: Format, n: nat, c: nat)
    requires c <= Count(f, n)
    ensures f != Unknown && (Rest(Base(f), n, c) != 0 || c < (if c == 0 then 1 else MinCount(f))) ==> c < Count(f, n)
    ensures c == 0 ==> c < Count(f, n)
  {
    RestIsZero(Base(f), n, c);
  }

  lemma CountEnds(f: Format, n: nat, c: nat)
    requires c <= Count(f, n) && (f != Unknown ==> Rest(Base(f), n, c) == 0) && c >= (if c == 0 then 1 else MinCount(f))
    ensures Part(f, n, c) == FormatText(f, n)
  {
    if f != Unknown {
      CountReached(f, n, c);
    }
    hide FixedPart, High, Count;
  }

  lemma CountReached(f: Format, n: nat, c: nat)
    requires c <= Count(f, n) && Rest(Base(f), n, c) == 0 && c >= (if c == 0 then 1 else MinCount(f))
    ensures c == Count(f, n)
  {
    RestIsZero(Base(f), n, c);
    hide Rest, Length;
  }

  lemma NothingWritten(buf: array<char>, start: nat, stop: nat, f: Format, n: nat)
    requires start < stop <= buf.Length && buf[stop - 1] == NUL
    ensures Written(buf, start, stop - 1, stop, Part(f, n, 0))
  {
    assert Part(f, n, 0) == "";
  }

  lemma NoDigits(f: Format, n: nat)
    ensures Rest(Base(f), n, 0) == n && LowBelow(10, n, 0) == 0
  {
  }

  // The point of a fixed-point number, or the zero of one that is zero
  method WritePoint(buf: array<char>, start: nat, end: nat, format: Format, number: nat, output: bool,
                    count: nat, ghost stop: nat, ghost n: nat, ghost t: string) returns (at: nat)
    requires Written(buf, start, end, stop, t)
    requires format != Unknown ==> number == Rest(Base(format), n, count)
    requires output <==> format == Fixed && LowBelow(10, n, count) < count
    modifies buf
    ensures start <= at && Written(buf, start, at, stop, PointText(format, n, count) + t)
    ensures forall k :: 0 <= k < buf.Length && !(start <= k < stop) ==> buf[k] == old(buf[k])
  {
    hide Rest, LowBelow;
    Nothing(t);
    at := end;
    if format == Fixed && count == 5 {
      if end > start {
        if output {
          at := Prepend(buf, start, at, '.', stop, t);
        } else if number == 0 {
          at := Prepend(buf, start, at, '0', stop, t);
        }
      } else {
        Full(buf, start, stop, PointText(format, n, count), t);
      }
    }
  }

  // --------------------------------------------------------------------- what it means

  // A text without a fraction stands for the number.
  lemma DecimalDenotes(f: Format, n: nat)
    requires f == U || f == U02
    ensures IntOf(FormatText(f, n)) == n && |FormatText(f, n)| == Count(f, n)
  {
    ValIsNumber(n, Count(f, n));
    IntOfHigh(n, Count(f, n), 0);
  }

  // What a digit counts, in capital letters beyond 9
  function DigitValue(c: char): int {
    if '0' <= c <= '9' then c as int - 48 else c as int - 65 + 10
  }

  // Reading a text back in a base, from the left
  function ReadBack(b: int, t: string): int {
    if t == "" then 0 else b * ReadBack(b, t[..|t| - 1]) + DigitValue(t[|t| - 1])
  }

  lemma AlphabetValues()
    ensures forall d :: 0 <= d < 16 ==> DigitValue(ALPHABET[d]) == d
  {
    assert forall d :: 0 <= d < 16 ==> ALPHABET[d] == (if d < 10 then 48 + d else 55 + d) as char;
  }

  // The lowest digit is the last one.
  lemma {:induction false} HighPeel(b: nat, n: nat, top: nat)
    requires IsBase(b) && top > 0
    ensures High(b, n, top, 0) == High(b, n / b, top - 1, 0) + [ALPHABET[n % b]]
  {
    if top > 1 {
      HighPeel(b, n, top - 1);
    }
  }

  lemma {:induction false} HighReadBack(b: nat, n: nat, top: nat)
    requires IsBase(b) && Length(b, n) <= top
    ensures ReadBack(b, High(b, n, top, 0)) == n
    decreases top
  {
    if top > 0 {
      HighPeel(b, n, top);
      var t := High(b, n, top, 0);
      assert t[..|t| - 1] == High(b, n / b, top - 1, 0);
      AlphabetValues();
      HighReadBack(b, n / b, top - 1);
      hide High;
    }
  }

  // In every format without a point the text read back in its base gives the number, and it has
  // no zero at its front that the format does not ask for.
  lemma TextReadBack(f: Format, n: nat)
    requires f != Fixed && f != Unknown
    ensures ReadBack(Base(f), FormatText(f, n)) == n
    ensures MinCount(f) <= |FormatText(f, n)|
    ensures |FormatText(f, n)| > MinCount(f) ==> FormatText(f, n)[0] != '0'
  {
    var b := Base(f);
    HighReadBack(b, n, Count(f, n));
    if Length(b, n) > MinCount(f) {
      TopDigit(b, n);
      HighAt(b, n, Length(b, n), 0, 0);
      AlphabetValues();
    }
    hide High, Length, DigitAt;
  }

  // The highest digit is not zero.
  lemma {:induction false} TopDigit(b: nat, n: nat)
    requires IsBase(b) && n > 0
    ensures Length(b, n) > 0 && DigitAt(b, n, Length(b, n) - 1) != 0
  {
    if n / b > 0 {
      TopDigit(b, n / b);
    }
  }

  // --------------------------------------------------------------------- both formatters

  // The two texts of a fixed-point number are equal unless it is a multiple of ten: then
  // png_format_number loses the zeros in front of the point.
  lemma FormatsAgree(n: nat)
    requires IsInt32(n)
    ensures FormatText(Fixed, n) == FixedAscii.TextOf(n) <==> n == 0 || n % 1000000 != 0
  {
    var top := Count(Fixed, n);
    FixedAscii.TextSplit(n);
    Nothing(FixedAscii.Unsigned(n));
    LowOfZero(10, n, 5);
    if n != 0 {
      LowOfZero(10, n, top);
      LowUnique(10, n, top, 5);
      LowUnique(10, n, top, 6);
      Multiples(n);
      hide FixedAscii.TextOf;
      AgreeAt(n, top, LowBelow(10, n, top));
    }
  }

  // The zero in front of the point of ten is lost.
  lemma FormatsDiffer()
    ensures FormatText(Fixed, 1000000) != FixedAscii.TextOf(1000000)
  {
    FormatsAgree(1000000);
  }

  lemma Multiples(n: nat)
    ensures n % 1000000 == 0 <==> LowBelow(10, n, 6) == 6
  {
    DivisibleExactly(n, 6);
    assert Pow10(6) == 1000000;
  }

  lemma AgreeAt(n: nat, top: nat, low: nat)
    requires n != 0 && top == Count(Fixed, n) && low == LowBelow(10, n, top) < top
    requires LowBelow(10, n, 5) == if low < 5 then low else 5
    ensures FormatText(Fixed, n) == FixedAscii.Unsigned(n) <==> low <= 5
  {
    NoneAbove(n, Length(10, n), 5);
    hide High, LowBelow, Length, DigitAt;
    var whole, text := High(10, n, Length(10, n), 5), FixedPart(n, top);
    if low < 5 {
      assert text == whole + "." + High(10, n, 5, low);
    } else {
      assert FixedAscii.PointText(n) == "" && FixedAscii.Unsigned(n) == whole;
    }
  }

  lemma NoneAbove(n: nat, top: nat, bottom: nat)
    ensures top <= bottom ==> High(10, n, top, bottom) == ""
    ensures High(10, n, bottom, bottom) == ""
  {
  }
}
