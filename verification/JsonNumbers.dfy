// What number texts mean (3rdParty/libcjson/cJSON.c:92-107).
module JsonNumbers {
  import opened CText
  import opened Json
  import G = JsonGrammar
  import D = Digits

  datatype Exponent = NoExponent | Exponent(mark: char, sign: string, digits: string)

  // The parts of a number text.  One zero may stand in front of the integer part, which may also
  // be empty, and so may the digits of the exponent.
  datatype Spelling = Spelling(minus: bool, zero: bool, whole: string, fraction: string, exponent: Exponent)
  {
    function Text(): string {
      Start() + (Point() + Tail())
    }

    function Start(): string {
      Sign() + (Zero() + whole)
    }

    function Sign(): string {
      if minus then "-" else ""
    }

    function Zero(): string {
      if zero then "0" else ""
    }

    function Point(): string {
      if fraction == "" then "" else "." + fraction
    }

    function Tail(): string {
      match exponent
      case NoExponent => ""
      case Exponent(mark, sign, digits) => [mark] + (sign + digits)
    }

    predicate WellFormed() {
      && AllDigits(whole) && (whole == "" || whole[0] != '0') && AllDigits(fraction)
      && (minus || zero || whole != "")
      && (exponent.Exponent? ==>
            exponent.mark in "eE" && exponent.sign in ["", "+", "-"] && AllDigits(exponent.digits))
    }

    // The character cannot go on the number.
    predicate Ends(c: char) {
      && !IsDigit(c) && (fraction == "" && exponent.NoExponent? ==> c != '.')
      && (exponent.NoExponent? ==> c != 'e' && c != 'E')
      && (exponent.Exponent? && exponent.sign == exponent.digits == "" ==> c != '+' && c != '-')
    }

    // By how many places the exponent moves the point to the right, and how many places there
    // are behind the point or by how many it is moved to the left
    function Right(): nat {
      if exponent.Exponent? && exponent.sign != "-" then PowerOf(exponent.digits) else 0
    }

    function Left(): nat {
      |fraction| + if exponent.Exponent? && exponent.sign == "-" then PowerOf(exponent.digits) else 0
    }

    // The text stands for the number v: v * 10^Left is the integer that all its digits make,
    // times 10^Right.
    predicate Denotes(v: real) {
      Times(v, D.Pow10(Left()) as real) == (Mantissa() * D.Pow10(Right())) as real
    }

    function Mantissa(): int {
      if minus then -D.IntOf(whole + fraction) else D.IntOf(whole + fraction)
    }
  }

  predicate AllDigits(t: string) {
    forall k :: 0 <= k < |t| ==> IsDigit(t[k])
  }

  function PowerOf(digits: string): nat {
    if D.IntOf(digits) < 0 then 0 else D.IntOf(digits)
  }

  // --------------------------------------------------------------------- digits

  lemma {:induction false} DigitsEndIs(s: string, p: nat, t: string)
    requires Occurs(s, p, t) && AllDigits(t) && !IsDigit(At(s, p + |t|))
    ensures G.DigitsEnd(s, p) == p + |t|
    decreases |t|
  {
    if t != "" {
      assert t == [t[0]] + t[1..];
      OccursConcat(s, p, [t[0]], t[1..]);
      OccursFirst(s, p, t);
      DigitsEndIs(s, p + 1, t[1..]);
    }
  }

  lemma {:induction false} DigitsAre(n: int, s: string, p: nat, t: string)
    requires Occurs(s, p, t)
    ensures G.Digits(n, s, p, p + |t|) == n * D.Pow10(|t|) + D.IntOf(t)
    decreases |t|
  {
    if t != "" {
      assert t == [t[0]] + t[1..];
      OccursConcat(s, p, [t[0]], t[1..]);
      OccursFirst(s, p, t);
      var d, k := t[0] as int - '0' as int, |t| - 1;
      DigitsAre(10 * n + d, s, p + 1, t[1..]);
      MoveDigit(n, d, D.Pow10(k));
    }
  }

  lemma MoveDigit(n: int, d: int, k: int)
    ensures (10 * n + d) * k == n * (10 * k) + d * k
  {
  }

  lemma {:induction false} IntOfConcat(t: string, u: string)
    ensures D.IntOf(t + u) == D.IntOf(t) * D.Pow10(|u|) + D.IntOf(u)
    decreases |t|
  {
    if t == "" {
      assert t + u == u;
    } else {
      IntOfConcat(t[1..], u);
      var d := t[0] as int - '0' as int;
      FirstDigit(t + u);
      FirstDigit(t);
      assert (t + u)[1..] == t[1..] + u;
      D.Pow10Sum(|t| - 1, |u|);
      hide D.IntOf, D.Pow10;
      Distribute(d, D.Pow10(|t| - 1), D.Pow10(|u|), D.IntOf(t[1..]));
    }
  }

  lemma FirstDigit(t: string)
    requires t != ""
    ensures D.IntOf(t) == (t[0] as int - '0' as int) * D.Pow10(|t| - 1) + D.IntOf(t[1..])
  {
  }

  lemma Distribute(d: int, a: int, k: int, i: int)
    ensures (d * a + i) * k == d * (a * k) + i * k
  {
    assert (d * a + i) * k == d * a * k + i * k;
  }

  lemma NaturalProduct(x: nat, y: nat)
    ensures x * y >= 0
  {
  }

  lemma {:induction false} IntOfNatural(t: string)
    requires AllDigits(t)
    ensures D.IntOf(t) >= 0
  {
    if t != "" {
      IntOfNatural(t[1..]);
      FirstDigit(t);
      var d := t[0] as int - '0' as int;
      assert d >= 0;
      hide D.IntOf, D.Pow10;
      NaturalProduct(d, D.Pow10(|t| - 1));
    }
  }

  // --------------------------------------------------------------------- powers of ten

  lemma PowerStep(e: int)
    ensures G.Pow10(e) == 10.0 * G.Pow10(e - 1)
  {
  }

  function Times(x: real, y: real): real {
    x * y
  }

  lemma Regroup(x: real, y: real, z: real)
    ensures Times(Times(x, y), z) == Times(x, Times(y, z))
  {
  }

  lemma RealProduct(x: int, y: int)
    ensures Times(x as real, y as real) == (x * y) as real
  {
  }

  lemma {:induction false} PowerShift(e: int, k: nat)
    ensures Times(G.Pow10(e - k), D.Pow10(k) as real) == G.Pow10(e)
  {
    if k > 0 {
      PowerShift(e, k - 1);
      PowerStep(e - (k - 1));
      var x, y := G.Pow10(e - k), D.Pow10(k - 1) as real;
      assert D.Pow10(k) as real == 10.0 * y;
      TenMoves(x, y);
    }
  }

  lemma TenMoves(x: real, y: real)
    ensures Times(x, 10.0 * y) == Times(10.0 * x, y)
  {
  }

  // The power by which the digits are multiplied, as the code computes it
  function Scale(n: Spelling): int {
    var x := if n.exponent.Exponent? then D.IntOf(n.exponent.digits) else 0;
    (if n.exponent.Exponent? && n.exponent.sign == "-" then -x else x) - |n.fraction|
  }

  // The digits times the scale of the code are what the text stands for.
  lemma ScaledDenotes(n: Spelling)
    requires n.WellFormed()
    ensures n.Denotes(G.Scaled(n.Mantissa(), Scale(n)))
  {
    ScaleIs(n);
    hide Times, G.Pow10, D.Pow10, Scale, Spelling.WellFormed, Spelling.Left, Spelling.Right, Spelling.Mantissa;
    var m, k, up, down := n.Mantissa(), G.Pow10(Scale(n)), D.Pow10(n.Right()), D.Pow10(n.Left());
    PowerShift(n.Right(), n.Left());
    PowerUp(n.Right());
    ScaledIs(m, Scale(n));
    Regroup(m as real, k, down as real);
    RealProduct(m, up);
  }

  lemma ScaleIs(n: Spelling)
    requires n.WellFormed()
    ensures Scale(n) == n.Right() - n.Left()
  {
    if n.exponent.Exponent? {
      IntOfNatural(n.exponent.digits);
    }
  }

  lemma PowerUp(k: nat)
    ensures G.Pow10(k) == D.Pow10(k) as real
  {
    PowerShift(k, k);
    assert Times(1.0, D.Pow10(k) as real) == D.Pow10(k) as real;
  }

  lemma ScaledIs(m: int, e: int)
    ensures G.Scaled(m, e) == Times(m as real, G.Pow10(e))
  {
  }

  // There is one number that the text stands for.
  lemma DenotesOnce(n: Spelling, v: real, w: real)
    requires n.Denotes(v) && n.Denotes(w)
    ensures v == w
  {
    CancelFactor(v, w, D.Pow10(n.Left()) as real);
  }

  lemma CancelFactor(v: real, w: real, d: real)
    requires d > 0.0 && Times(v, d) == Times(w, d)
    ensures v == w
  {
    assert (v - w) * d == 0.0;
  }

  // --------------------------------------------------------------------- reading

  lemma TextIs(n: Spelling)
    ensures n.Text() == n.Start() + (n.Point() + n.Tail()) && n.Start() == n.Sign() + (n.Zero() + n.whole)
  {
  }

  lemma PartsAt(n: Spelling, s: string, p: nat)
    requires n.WellFormed() && Occurs(s, p, n.Text())
    ensures
      var p0 := p + |n.Sign()|;
      var p1 := p0 + |n.Zero()|;
      var p2 := p1 + |n.whole|;
      var p3 := p2 + |n.Point()|;
      && Occurs(s, p, n.Sign()) && Occurs(s, p0, n.Zero()) && Occurs(s, p1, n.whole) && Occurs(s, p2, n.Point())
      && Occurs(s, p3, n.Tail()) && p3 + |n.Tail()| == p + |n.Text()| <= |s|
  {
    hide Occurs, Spelling.Text, Spelling.Start, Spelling.Sign, Spelling.Zero, Spelling.Point, Spelling.Tail, Spelling.WellFormed;
    TextIs(n);
    EndsWithin(s, p, n.Text());
    OccursConcat(s, p, n.Start(), n.Point() + n.Tail());
    OccursConcat(s, p, n.Sign(), n.Zero() + n.whole);
    OccursConcat(s, p + |n.Sign()|, n.Zero(), n.whole);
    OccursConcat(s, p + |n.Start()|, n.Point(), n.Tail());
  }

  lemma EndsWithin(s: string, p: nat, t: string)
    requires Occurs(s, p, t)
    ensures p + |t| <= |s|
  {
  }

  lemma AtFirst(s: string, p: nat, t: string, next: nat)
    requires Occurs(s, p, t) && next == p + |t| <= |s|
    ensures At(s, p) == if t == "" then At(s, next) else t[0]
  {
  }

  // Behind the integer part, and behind the fraction
  lemma Borders(n: Spelling, s: string, p2: nat, p3: nat, q: nat)
    requires n.WellFormed() && Occurs(s, p2, n.Point()) && Occurs(s, p3, n.Tail())
    requires p3 == p2 + |n.Point()| && q == p3 + |n.Tail()| <= |s| && n.Ends(At(s, q))
    ensures !IsDigit(At(s, p2)) && !IsDigit(At(s, p3))
    ensures n.fraction == "" ==> At(s, p2) != '.'
    ensures n.exponent.Exponent? <==> At(s, p3) == 'e' || At(s, p3) == 'E'
  {
    AtFirst(s, p2, n.Point(), p3);
    AtFirst(s, p3, n.Tail(), q);
    hide At, Occurs;
  }

  lemma IntegerAt(n: Spelling, s: string, p0: nat, p1: nat, p2: nat)
    requires n.WellFormed() && p1 == p0 + |n.Zero()| && p2 == p1 + |n.whole| <= |s|
    requires Occurs(s, p0, n.Zero()) && Occurs(s, p1, n.whole) && !IsDigit(At(s, p2))
    ensures G.ZeroEnd(s, p0) == p1 && G.IntegerEnd(s, p0) == p2
    ensures G.Digits(0, s, p1, p2) == D.IntOf(n.whole)
  {
    AtFirst(s, p0, n.Zero(), p1);
    AtFirst(s, p1, n.whole, p2);
    assert n.whole != "" ==> IsDigit(n.whole[0]);
    DigitsEndIs(s, p1, n.whole);
    DigitsAre(0, s, p1, n.whole);
    hide Occurs, At, G.Digits, G.DigitsEnd, D.IntOf, D.Pow10, AllDigits;
  }

  lemma FractionAt(n: Spelling, s: string, p2: nat, p3: nat, w: int)
    requires n.WellFormed() && p3 == p2 + |n.Point()| <= |s| && Occurs(s, p2, n.Point()) && !IsDigit(At(s, p3))
    requires n.fraction == "" ==> At(s, p2) != '.'
    ensures G.FractionEnd(s, p2) == p3 && (n.fraction == "" <==> p3 == p2)
    ensures n.fraction != "" ==>
      |n.fraction| == p3 - p2 - 1 && G.Digits(w, s, p2 + 1, p3) == w * D.Pow10(|n.fraction|) + D.IntOf(n.fraction)
  {
    if n.fraction != "" {
      OccursConcat(s, p2, ".", n.fraction);
      OccursChar(s, p2, '.');
      AtFirst(s, p2 + 1, n.fraction, p3);
      DigitsEndIs(s, p2 + 1, n.fraction);
      DigitsAre(w, s, p2 + 1, n.fraction);
      assert IsDigit(n.fraction[0]);
    }
    hide Occurs, G.Digits, G.DigitsEnd, D.IntOf, D.Pow10, AllDigits;
  }

  lemma MantissaParses(n: Spelling, s: string, p: nat, p0: nat, p1: nat, p2: nat, p3: nat)
    requires n.WellFormed()
    requires p0 == p + |n.Sign()| && p1 == p0 + |n.Zero()| && p2 == p1 + |n.whole| && p3 == p2 + |n.Point()| <= |s|
    requires Occurs(s, p, n.Sign()) && Occurs(s, p0, n.Zero()) && Occurs(s, p1, n.whole) && Occurs(s, p2, n.Point())
    requires !IsDigit(At(s, p2)) && !IsDigit(At(s, p3)) && (n.fraction == "" ==> At(s, p2) != '.')
    ensures G.MantissaAt(s, p) == G.Mantissa(n.Mantissa(), -|n.fraction|, p3)
  {
    hide Occurs, At, G.Digits, G.DigitsEnd, G.IntegerEnd, G.ZeroEnd, G.FractionEnd, D.IntOf, D.Pow10;
    SignAt(n, s, p, p0, p1, p2);
    IntegerAt(n, s, p0, p1, p2);
    FractionAt(n, s, p2, p3, D.IntOf(n.whole));
    IntOfConcat(n.whole, n.fraction);
    if n.fraction == "" {
      assert n.whole + n.fraction == n.whole;
    }
    hide AllDigits;
  }

  lemma SignAt(n: Spelling, s: string, p: nat, p0: nat, p1: nat, p2: nat)
    requires n.WellFormed() && p0 == p + |n.Sign()| && p1 == p0 + |n.Zero()| && p2 == p1 + |n.whole| <= |s|
    requires Occurs(s, p, n.Sign()) && Occurs(s, p0, n.Zero()) && Occurs(s, p1, n.whole)
    ensures At(s, p) == '-' <==> n.minus
    ensures !n.minus ==> p0 == p && IsDigit(At(s, p))
  {
    AtFirst(s, p, n.Sign(), p0);
    AtFirst(s, p0, n.Zero(), p1);
    AtFirst(s, p1, n.whole, p2);
    assert n.whole != "" ==> IsDigit(n.whole[0]);
    hide Occurs, At, AllDigits;
  }

  lemma TailParses(n: Spelling, s: string, p3: nat, q: nat)
    requires n.WellFormed() && Occurs(s, p3, n.Tail()) && q == p3 + |n.Tail()| <= |s| && n.Ends(At(s, q))
    requires n.exponent.Exponent? <==> At(s, p3) == 'e' || At(s, p3) == 'E'
    ensures G.ExponentAt(s, p3) == (Scale(n) + |n.fraction|, q)
  {
    if n.exponent.Exponent? {
      var x := n.exponent;
      OccursConcat(s, p3, [x.mark], x.sign + x.digits);
      OccursConcat(s, p3 + 1, x.sign, x.digits);
      var d := p3 + 1 + |x.sign|;
      AtFirst(s, p3 + 1, x.sign, d);
      AtFirst(s, d, x.digits, q);
      assert x.digits != "" ==> IsDigit(x.digits[0]);
      assert G.ExponentStart(s, p3) == d;
      DigitsEndIs(s, d, x.digits);
      DigitsAre(0, s, d, x.digits);
      hide Occurs, G.Digits, G.DigitsEnd, G.ExponentStart, D.IntOf, D.Pow10, AllDigits;
    }
  }

  // A number text is read to its end, as what it stands for.
  lemma NumberParses(n: Spelling, s: string, p: nat)
    requires n.WellFormed() && Occurs(s, p, n.Text()) && n.Ends(At(s, p + |n.Text()|))
    ensures
      var r := G.ParseNumber(s, p);
      r.Parsed? && r.end == p + |n.Text()| && r.value.Number? && n.Denotes(r.value.valuedouble)
  {
    hide Occurs, At, G.MantissaAt, G.ExponentAt, G.Scaled, Scale, AllDigits, Spelling.WellFormed, Spelling.Denotes;
    hide Spelling.Text, Spelling.Sign, Spelling.Zero, Spelling.Point, Spelling.Tail, Spelling.Mantissa, Spelling.Ends;
    PartsAt(n, s, p);
    var p0 := p + |n.Sign()|;
    var p1 := p0 + |n.Zero()|;
    var p2 := p1 + |n.whole|;
    var p3 := p2 + |n.Point()|;
    var q := p + |n.Text()|;
    Borders(n, s, p2, p3, q);
    MantissaParses(n, s, p, p0, p1, p2, p3);
    TailParses(n, s, p3, q);
    ScaledDenotes(n);
    assert -|n.fraction| + (Scale(n) + |n.fraction|) == Scale(n);
  }
}
