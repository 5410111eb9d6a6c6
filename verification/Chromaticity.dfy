// End points from chromaticities (3rdParty/libpng/png.c:1230-1490).
module Chromaticity {
  import opened Wrappers
  import opened Bits
  import opened MulDiv
  import opened FixedPoint

  datatype Point = Point(x: int, y: int)

  datatype Chromaticities = Chromaticities(red: Point, green: Point, blue: Point, white: Point)

  class EndPoints {
    var redX: int
    var redY: int
    var redZ: int
    var greenX: int
    var greenY: int
    var greenZ: int
    var blueX: int
    var blueY: int
    var blueZ: int

    constructor () {
      redX, redY, redZ, greenX, greenY, greenZ, blueX, blueY, blueZ := 0, 0, 0, 0, 0, 0, 0, 0, 0;
    }
  }

  predicate InTriangle(p: Point) {
    0 <= p.x <= FP_1 && 0 <= p.y <= FP_1 - p.x
  }

  predicate InRange(xy: Chromaticities) {
    InTriangle(xy.red) && InTriangle(xy.green) && InTriangle(xy.blue) && InTriangle(xy.white)
  }

  function Z(p: Point): int {
    FP_1 - p.x - p.y
  }

  // --------------------------------------------------------------------- the determinant

  // Twice the area of the triangle p, q, o, with a sign
  function Det(p: Point, q: Point, o: Point): int {
    Times(p.x - o.x, q.y - o.y) - Times(p.y - o.y, q.x - o.x)
  }

  const ORIGIN := Point(0, 0)
  const UNIT_X := Point(FP_1, 0)
  const UNIT_Y := Point(0, FP_1)
  const MAX_DET := 10000000000

  lemma Rotate(p: Point, q: Point, o: Point)
    ensures Det(p, q, o) == Det(q, o, p)
  {
    Expand(p, q, o);
    Expand(q, o, p);
  }

  lemma Expand(p: Point, q: Point, o: Point)
    ensures Det(p, q, o) == Times(p.x, q.y) - Times(p.y, q.x) + Times(q.x, o.y) - Times(q.y, o.x)
                            + Times(o.x, p.y) - Times(o.y, p.x)
  {
    Differences(p.x, o.x, q.y, o.y);
    Differences(p.y, o.y, q.x, o.x);
  }

  lemma Differences(a: int, b: int, c: int, d: int)
    ensures Times(a - b, c - d) == Times(a, c) - Times(a, d) - Times(b, c) + Times(b, d)
  {
    assert (a - b) * (c - d) == a * (c - d) - b * (c - d);
  }

  // The determinant is a weighted mean of its values at the corners.
  lemma Mean(p: Point, q: Point, o: Point)
    ensures FP_1 * Det(p, q, o) ==
              Times(Z(p), Det(ORIGIN, q, o)) + Times(p.x, Det(UNIT_X, q, o)) + Times(p.y, Det(UNIT_Y, q, o))
  {
    var c, d := q.y - o.y, q.x - o.x;
    var k := Times(-o.x, c) - Times(-o.y, d);
    FromOffset(p.x, o.x, c);
    FromOffset(p.y, o.y, d);
    FromOffset(FP_1, o.x, c);
    FromOffset(FP_1, o.y, d);
    WeightedSum(Z(p), p.x, p.y, k, FP_1 * c, -FP_1 * d);
    assert Times(p.x, FP_1 * c) == FP_1 * Times(p.x, c);
    assert Times(p.y, -FP_1 * d) == -FP_1 * Times(p.y, d);
    assert Times(FP_1, k) == FP_1 * k;
  }

  lemma FromOffset(a: int, b: int, c: int)
    ensures Times(a - b, c) == Times(a, c) + Times(-b, c)
  {
  }

  lemma WeightedSum(z: int, x: int, y: int, k: int, a: int, b: int)
    ensures Times(z, k) + Times(x, k + a) + Times(y, k + b) == Times(z + x + y, k) + Times(x, a) + Times(y, b)
  {
    assert x * (k + a) == x * k + x * a;
    assert y * (k + b) == y * k + y * b;
    assert (z + x + y) * k == z * k + x * k + y * k;
  }

  lemma MeanBound(p: Point, d0: int, d1: int, d2: int, d: int)
    requires InTriangle(p) && Abs(d0) <= MAX_DET && Abs(d1) <= MAX_DET && Abs(d2) <= MAX_DET
    requires FP_1 * d == Times(Z(p), d0) + Times(p.x, d1) + Times(p.y, d2)
    ensures Abs(d) <= MAX_DET
  {
    WeightBound(Z(p), d0);
    WeightBound(p.x, d1);
    WeightBound(p.y, d2);
  }

  lemma WeightBound(w: nat, d: int)
    requires Abs(d) <= MAX_DET
    ensures -MAX_DET * w <= Times(w, d) <= MAX_DET * w
  {
    LargerFactor(d, MAX_DET, w);
    LargerFactor(-MAX_DET, d, w);
    assert Times(d, w) == Times(w, d);
    hide Times, Abs;
    assert Times(MAX_DET, w) == MAX_DET * w && Times(-MAX_DET, w) == -MAX_DET * w by { TimesIs(w); }
  }

  lemma TimesIs(w: nat)
    ensures Times(MAX_DET, w) == MAX_DET * w && Times(-MAX_DET, w) == -MAX_DET * w
  {
  }

  predicate Corner(p: Point) {
    p == ORIGIN || p == UNIT_X || p == UNIT_Y
  }

  // Moving the points into the corners one after another
  lemma CornersBound(p: Point, q: Point, o: Point)
    requires Corner(p) && Corner(q) && Corner(o)
    ensures Abs(Det(p, q, o)) <= MAX_DET
  {
    if o == ORIGIN {
    } else if o == UNIT_X {
    } else {
    }
  }

  lemma TwoCornersBound(p: Point, q: Point, o: Point)
    requires InTriangle(p) && Corner(q) && Corner(o)
    ensures Abs(Det(p, q, o)) <= MAX_DET
  {
    CornersBound(ORIGIN, q, o);
    CornersBound(UNIT_X, q, o);
    CornersBound(UNIT_Y, q, o);
    Mean(p, q, o);
    MeanBound(p, Det(ORIGIN, q, o), Det(UNIT_X, q, o), Det(UNIT_Y, q, o), Det(p, q, o));
  }

  lemma OneCornerBound(p: Point, q: Point, o: Point)
    requires InTriangle(p) && InTriangle(q) && Corner(o)
    ensures Abs(Det(p, q, o)) <= MAX_DET
  {
    hide Det;
    Rotated(p, ORIGIN, o);
    Rotated(p, UNIT_X, o);
    Rotated(p, UNIT_Y, o);
    Rotate(p, q, o);
    Mean(q, o, p);
    MeanBound(q, Det(ORIGIN, o, p), Det(UNIT_X, o, p), Det(UNIT_Y, o, p), Det(q, o, p));
  }

  lemma Rotated(p: Point, q: Point, o: Point)
    requires InTriangle(p) && Corner(q) && Corner(o)
    ensures Abs(Det(q, o, p)) <= MAX_DET
  {
    TwoCornersBound(p, q, o);
    Rotate(p, q, o);
  }

  // The determinant of any three points of the triangle
  lemma DeterminantBound(p: Point, q: Point, o: Point)
    requires InTriangle(p) && InTriangle(q) && InTriangle(o)
    ensures Abs(Det(p, q, o)) <= MAX_DET
  {
    hide Det;
    OneCornerBound(p, q, ORIGIN);
    OneCornerBound(p, q, UNIT_X);
    OneCornerBound(p, q, UNIT_Y);
    Rotate(p, q, ORIGIN);
    Rotate(q, ORIGIN, p);
    Rotate(p, q, UNIT_X);
    Rotate(q, UNIT_X, p);
    Rotate(p, q, UNIT_Y);
    Rotate(q, UNIT_Y, p);
    Rotate(p, q, o);
    Rotate(q, o, p);
    Mean(o, p, q);
    MeanBound(o, Det(ORIGIN, p, q), Det(UNIT_X, p, q), Det(UNIT_Y, p, q), Det(o, p, q));
  }

  // --------------------------------------------------------------------- the scales

  // The difference of two products, both divided by 7 to stay in 32 bits
  function Sevenths(p: Point, q: Point, o: Point): int {
    HalfUp(Times(p.x - o.x, q.y - o.y), 7) - HalfUp(Times(p.y - o.y, q.x - o.x), 7)
  }

  lemma FactorBound(a: int, b: int)
    requires Abs(a) <= FP_1 && Abs(b) <= FP_1
    ensures Abs(Times(a, b)) <= MAX_DET
  {
    MulUpTo(Abs(a), FP_1, Abs(b), FP_1);
    SignOfProduct(a, b);
  }

  // The products and their difference fit 32 bits.
  lemma SeventhsFit(p: Point, q: Point, o: Point)
    requires InTriangle(p) && InTriangle(q) && InTriangle(o)
    ensures IsInt32(HalfUp(Times(p.x - o.x, q.y - o.y), 7)) && IsInt32(HalfUp(Times(p.y - o.y, q.x - o.x), 7))
    ensures IsInt32(Sevenths(p, q, o))
    ensures Abs(7 * Sevenths(p, q, o) - Det(p, q, o)) <= 7
  {
    DeterminantBound(p, q, o);
    FactorBound(p.x - o.x, q.y - o.y);
    FactorBound(p.y - o.y, q.x - o.x);
    var l, r := Times(p.x - o.x, q.y - o.y), Times(p.y - o.y, q.x - o.x);
    HalfUpError(l, 7);
    HalfUpError(r, 7);
  }

  ghost function RedInverse(xy: Chromaticities): Option<int> {
    MulDivNearest(xy.white.y, Sevenths(xy.green, xy.red, xy.blue), Sevenths(xy.green, xy.white, xy.blue))
  }

  ghost function GreenInverse(xy: Chromaticities): Option<int> {
    MulDivNearest(xy.white.y, Sevenths(xy.green, xy.red, xy.blue), Sevenths(xy.white, xy.red, xy.blue))
  }

  // The scales of red and green are below the white scale.
  ghost predicate ScalesSeparate(xy: Chromaticities) {
    && InRange(xy)
    && RedInverse(xy).Some? && RedInverse(xy).value > xy.white.y
    && GreenInverse(xy).Some? && GreenInverse(xy).value > xy.white.y
  }

  // The scale that is left for blue, before it is stored in 32 bits
  ghost function BlueRest(xy: Chromaticities): int
    requires ScalesSeparate(xy)
  {
    Reciprocal(xy.white.y) - Reciprocal(RedInverse(xy).value) - Reciprocal(GreenInverse(xy).value)
  }

  function Wrapped(x: int): int {
    Signed(U32(x))
  }

  ghost predicate Accepted(xy: Chromaticities) {
    ScalesSeparate(xy) && Wrapped(BlueRest(xy)) > 0
  }

  // A color of chromaticity p that is scaled by 1/inverse
  ghost predicate Divisible(p: Point, inverse: int) {
    && MulDivNearest(p.x, FP_1, inverse).Some? && MulDivNearest(p.y, FP_1, inverse).Some?
    && MulDivNearest(Z(p), FP_1, inverse).Some?
  }

  ghost predicate Multipliable(p: Point, scale: int) {
    && MulDivNearest(p.x, scale, FP_1).Some? && MulDivNearest(p.y, scale, FP_1).Some?
    && MulDivNearest(Z(p), scale, FP_1).Some?
  }

  ghost predicate Representable(xy: Chromaticities)
    requires ScalesSeparate(xy)
  {
    && Divisible(xy.red, RedInverse(xy).value) && Divisible(xy.green, GreenInverse(xy).value)
    && Multipliable(xy.blue, Wrapped(BlueRest(xy)))
  }

  // Red and green are scaled by 1/inverse, blue by the scale that is left.
  ghost predicate Filled(xyz: EndPoints, xy: Chromaticities)
    requires ScalesSeparate(xy)
    reads xyz
  {
    && Some(xyz.redX) == MulDivNearest(xy.red.x, FP_1, RedInverse(xy).value)
    && Some(xyz.redY) == MulDivNearest(xy.red.y, FP_1, RedInverse(xy).value)
    && Some(xyz.redZ) == MulDivNearest(Z(xy.red), FP_1, RedInverse(xy).value)
    && Some(xyz.greenX) == MulDivNearest(xy.green.x, FP_1, GreenInverse(xy).value)
    && Some(xyz.greenY) == MulDivNearest(xy.green.y, FP_1, GreenInverse(xy).value)
    && Some(xyz.greenZ) == MulDivNearest(Z(xy.green), FP_1, GreenInverse(xy).value)
    && Some(xyz.blueX) == MulDivNearest(xy.blue.x, Wrapped(BlueRest(xy)), FP_1)
    && Some(xyz.blueY) == MulDivNearest(xy.blue.y, Wrapped(BlueRest(xy)), FP_1)
    && Some(xyz.blueZ) == MulDivNearest(Z(xy.blue), Wrapped(BlueRest(xy)), FP_1)
  }

  // --------------------------------------------------------------------- the operation

  // left-right as it is computed three times; None stands for the status 2
  method Difference(a: int, b: int, c: int, d: int) returns (r: Option<int>)
    requires IsInt32(HalfUp(Times(a, b), 7)) && IsInt32(HalfUp(Times(c, d), 7))
    requires IsInt32(HalfUp(Times(a, b), 7) - HalfUp(Times(c, d), 7))
    ensures r == Some(HalfUp(Times(a, b), 7) - HalfUp(Times(c, d), 7))
  {
    HalfUpZero(7);
    hide HalfUp;
    var left := MulDivNearest(a, b, 7);
    if left == None {
      return None;
    }
    var right := MulDivNearest(c, d, 7);
    if right == None {
      return None;
    }
    r := Some(Wrapped(left.value - right.value));
  }

  // The status 2 never occurs; 0 is returned exactly for accepted chromaticities whose end
  // points can be represented.
  method XYZFromXy(xyz: EndPoints, xy: Chromaticities) returns (status: int)
    modifies xyz
    ensures status == 0 || status == 1
    ensures status == 0 <==> Accepted(xy) && Representable(xy)
    ensures status == 0 ==> Filled(xyz, xy)
  {
    hide HalfUp, Times, Wrapped, MulDivNearest, Reciprocal;
    var r, g, b, w := xy.red, xy.green, xy.blue, xy.white;
    if r.x < 0 || r.x > FP_1 || r.y < 0 || r.y > FP_1 - r.x { return 1; }
    if g.x < 0 || g.x > FP_1 || g.y < 0 || g.y > FP_1 - g.x { return 1; }
    if b.x < 0 || b.x > FP_1 || b.y < 0 || b.y > FP_1 - b.x { return 1; }
    if w.x < 0 || w.x > FP_1 || w.y < 0 || w.y > FP_1 - w.x { return 1; }
    var redInverse, greenInverse;
    status, redInverse, greenInverse := Inverses(xy);
    if status != 0 {
      return;
    }
    var blueScale := Wrapped(Reciprocal(w.y) - Reciprocal(redInverse) - Reciprocal(greenInverse));
    if blueScale <= 0 { return 1; }

    var v := MulDivNearest(r.x, FP_1, redInverse);
    if v == None { return 1; }
    xyz.redX := v.value;
    v := MulDivNearest(r.y, FP_1, redInverse);
    if v == None { return 1; }
    xyz.redY := v.value;
    v := MulDivNearest(FP_1 - r.x - r.y, FP_1, redInverse);
    if v == None { return 1; }
    xyz.redZ := v.value;

    v := MulDivNearest(g.x, FP_1, greenInverse);
    if v == None { return 1; }
    xyz.greenX := v.value;
    v := MulDivNearest(g.y, FP_1, greenInverse);
    if v == None { return 1; }
    xyz.greenY := v.value;
    v := MulDivNearest(FP_1 - g.x - g.y, FP_1, greenInverse);
    if v == None { return 1; }
    xyz.greenZ := v.value;

    v := MulDivNearest(b.x, blueScale, FP_1);
    if v == None { return 1; }
    xyz.blueX := v.value;
    v := MulDivNearest(b.y, blueScale, FP_1);
    if v == None { return 1; }
    xyz.blueY := v.value;
    v := MulDivNearest(FP_1 - b.x - b.y, blueScale, FP_1);
    if v == None { return 1; }
    xyz.blueZ := v.value;
    return 0;
  }

  // The part that may return 2
  method Inverses(xy: Chromaticities) returns (status: int, redInverse: int, greenInverse: int)
    requires InRange(xy)
    ensures status == 0 || status == 1
    ensures status == 0 <==> ScalesSeparate(xy)
    ensures status == 0 ==> Some(redInverse) == RedInverse(xy) && Some(greenInverse) == GreenInverse(xy)
  {
    var r, g, b, w := xy.red, xy.green, xy.blue, xy.white;
    hide HalfUp, Times, Det, MulDivNearest, Sevenths;
    redInverse, greenInverse := 0, 0;
    var denominator := Scaled(g.x - b.x, r.y - b.y, g.y - b.y, r.x - b.x, g, r, b);
    if denominator == None { return 2, 0, 0; }
    var divisor := Scaled(g.x - b.x, w.y - b.y, g.y - b.y, w.x - b.x, g, w, b);
    if divisor == None { return 2, 0, 0; }
    var inverse := MulDivNearest(w.y, denominator.value, divisor.value);
    if inverse == None || inverse.value <= w.y { return 1, 0, 0; }
    redInverse := inverse.value;
    divisor := Scaled(r.y - b.y, w.x - b.x, r.x - b.x, w.y - b.y, w, r, b);
    if divisor == None { return 2, 0, 0; }
    inverse := MulDivNearest(w.y, denominator.value, divisor.value);
    if inverse == None || inverse.value <= w.y { return 1, 0, 0; }
    greenInverse := inverse.value;
    status := 0;
  }

  // The difference is that of three points.
  method Scaled(a: int, b: int, c: int, d: int, ghost p: Point, ghost q: Point, ghost o: Point)
    returns (r: Option<int>)
    requires InTriangle(p) && InTriangle(q) && InTriangle(o)
    requires (a, b) == (p.x - o.x, q.y - o.y) || (a, b) == (q.y - o.y, p.x - o.x)
    requires (c, d) == (p.y - o.y, q.x - o.x) || (c, d) == (q.x - o.x, p.y - o.y)
    ensures r == Some(Sevenths(p, q, o))
  {
    SeventhsFit(p, q, o);
    Commute(a, b);
    Commute(c, d);
    hide HalfUp, Times, Det, MulDivNearest;
    r := Difference(a, b, c, d);
  }

  lemma Commute(a: int, b: int)
    ensures Times(a, b) == Times(b, a)
  {
  }

  // --------------------------------------------------------------------- the blue scale

  const FP_SQUARE := 10000000000
  const LEAST_WHITE := 5     // below it the reciprocal of white is out of range

  lemma ReciprocalRange(a: int)
    requires a > 0
    ensures 0 <= Reciprocal(a) < TWO31
    ensures a >= LEAST_WHITE ==> Reciprocal(a) == HalfUp(FP_SQUARE, a) <= 2000000000
    ensures a < LEAST_WHITE ==> Reciprocal(a) == 0
  {
    HalfUpAntitone(FP_SQUARE, 1, a);
    if a >= LEAST_WHITE {
      HalfUpAntitone(FP_SQUARE, LEAST_WHITE, a);
      HalfUpUnique(FP_SQUARE, LEAST_WHITE, 2000000000);
    } else {
      HalfUpAntitone(FP_SQUARE, a, 4);
      HalfUpUnique(FP_SQUARE, 4, 2500000000);
    }
    hide HalfUp;
  }

  // The largest inverse whose scale exceeds 2^31 together with that of the smaller inverse x
  function LargestPartner(x: int): int {
    if x == 5 then 67 else if x == 6 then 20 else if x == 7 then 13 else if x == 8 then 11 else if x == 9 then 9 else 0
  }

  // The exact sum of the two scales exceeds 2^31.
  predicate ScalesExceed(x: int, y: int) {
    Times(TWO31, Times(x, y)) < FP_SQUARE * (x + y)
  }

  lemma PartnerExactly(x: int, y: int)
    requires LEAST_WHITE <= x <= y
    ensures ScalesExceed(x, y) <==> y <= LargestPartner(x)
  {
    if x == 5 {
    } else if x == 6 {
    } else if x == 7 {
    } else if x == 8 {
    } else if x == 9 {
    } else {
      MulAtLeast(x, y);
      LargerFactor(10, x, y);
    }
  }

  lemma ReciprocalValues()
    ensures Reciprocal(5) == 2000000000 && Reciprocal(6) == 1666666667 && Reciprocal(7) == 1428571429
    ensures Reciprocal(8) == 1250000000 && Reciprocal(9) == 1111111111 && Reciprocal(10) == 1000000000
    ensures Reciprocal(11) == 909090909 && Reciprocal(12) == 833333333
    ensures Reciprocal(13) == 769230769 && Reciprocal(14) == 714285714
    ensures Reciprocal(20) == 500000000 && Reciprocal(21) == 476190476
    ensures Reciprocal(67) == 149253731 && Reciprocal(68) == 147058824
  {
  }

  lemma ReciprocalAntitone(a: int, b: int)
    requires LEAST_WHITE <= a <= b
    ensures Reciprocal(b) <= Reciprocal(a)
  {
    ReciprocalRange(a);
    ReciprocalRange(b);
    HalfUpAntitone(FP_SQUARE, a, b);
    hide HalfUp, Reciprocal;
  }

  // The rounded scales exceed 2^31 as the exact ones do.
  lemma RoundedScalesExceed(x: int, y: int)
    requires LEAST_WHITE <= x <= y
    ensures Reciprocal(x) + Reciprocal(y) > TWO31 <==> ScalesExceed(x, y)
  {
    hide Reciprocal, ScalesExceed;
    ReciprocalValues();
    PartnerExactly(x, y);
    if x >= 10 {
      ReciprocalAntitone(10, x);
      ReciprocalAntitone(10, y);
    } else {
      var t := LargestPartner(x);
      if y <= t {
        ReciprocalAntitone(y, t);
      } else {
        ReciprocalAntitone(t + 1, y);
      }
    }
  }

  // The subtractions overflow only for a white below 5, and then exactly if neither inverse is
  // below 5 and the scales of red and green, which are 10^10 by the inverse, exceed 2^31
  // together.
  lemma BlueOverflowsExactly(xy: Chromaticities)
    requires ScalesSeparate(xy)
    ensures IsInt32(Reciprocal(xy.white.y) - Reciprocal(RedInverse(xy).value))
    ensures !IsInt32(BlueRest(xy)) <==>
      && xy.white.y < LEAST_WHITE && RedInverse(xy).value >= LEAST_WHITE && GreenInverse(xy).value >= LEAST_WHITE
      && ScalesExceed(RedInverse(xy).value, GreenInverse(xy).value)
  {
    hide RedInverse, GreenInverse, HalfUp;
    var w, r, g := xy.white.y, RedInverse(xy).value, GreenInverse(xy).value;
    ReciprocalRange(r);
    ReciprocalRange(g);
    if w > 0 {
      ReciprocalRange(w);
    }
    if w >= LEAST_WHITE {
      HalfUpAntitone(FP_SQUARE, w, r);
      HalfUpAntitone(FP_SQUARE, w, g);
    } else if r >= LEAST_WHITE && g >= LEAST_WHITE {
      RoundedScalesExceed(if r < g then r else g, if r < g then g else r);
      Commute(r, g);
      hide Reciprocal, Times;
    }
  }

  // With such chromaticities the scales of red and green pass their checks, the rest for blue
  // is below -2^31, and in 32 bits it is a positive number.
  lemma BlueOverflows()
    ensures
      var xy := Chromaticities(Point(23815, 0), Point(63692, 4), Point(5815, 1), Point(12247, 1));
      && Accepted(xy) && BlueRest(xy) == -2254901961 && !IsInt32(BlueRest(xy)) && Wrapped(BlueRest(xy)) == 2040065335
  {
    var xy := Chromaticities(Point(23815, 0), Point(63692, 4), Point(5815, 1), Point(12247, 1));
    assert Sevenths(xy.green, xy.red, xy.blue) == -15982;
    assert Sevenths(xy.green, xy.white, xy.blue) == -2757;
    assert Sevenths(xy.white, xy.red, xy.blue) == -919;
    hide Sevenths;
    assert RedInverse(xy) == Some(6) && GreenInverse(xy) == Some(17);
    assert Reciprocal(1) == 0 && Reciprocal(6) == 1666666667 && Reciprocal(17) == 588235294;
    hide RedInverse, GreenInverse, Reciprocal, MulDivNearest;
    assert BlueRest(xy) == -2254901961;
  }

  // --------------------------------------------------------------------- what is recovered

  // From a white of at least 5 on nothing else can fail.
  lemma AcceptedIsRepresentable(xy: Chromaticities)
    requires Accepted(xy) && xy.white.y >= LEAST_WHITE
    ensures Representable(xy)
  {
    hide RedInverse, GreenInverse, HalfUp, MulDivNearest, Reciprocal;
    BlueOverflowsExactly(xy);
    ReciprocalRange(xy.white.y);
    ReciprocalRange(RedInverse(xy).value);
    ReciprocalRange(GreenInverse(xy).value);
    Divides(xy.red, RedInverse(xy).value);
    Divides(xy.green, GreenInverse(xy).value);
    Multiplies(xy.blue, BlueRest(xy));
  }

  lemma Divides(p: Point, inverse: int)
    requires InTriangle(p) && inverse > LEAST_WHITE
    ensures Divisible(p, inverse)
  {
    DividesOne(p.x, inverse);
    DividesOne(p.y, inverse);
    DividesOne(Z(p), inverse);
  }

  lemma DividesOne(c: int, inverse: int)
    requires 0 <= c <= FP_1 && inverse > LEAST_WHITE
    ensures MulDivNearest(c, FP_1, inverse) == Some(HalfUp(Times(c, FP_1), inverse))
  {
    assert Times(c, FP_1) == c * FP_1;
    HalfUpMonotone(0, Times(c, FP_1), inverse);
    HalfUpMonotone(Times(c, FP_1), FP_SQUARE, inverse);
    HalfUpZero(inverse);
    ReciprocalRange(inverse);
    hide HalfUp;
  }

  lemma Multiplies(p: Point, scale: int)
    requires InTriangle(p) && 0 <= scale < TWO31
    ensures Multipliable(p, scale)
  {
    MultipliesOne(p.x, scale);
    MultipliesOne(p.y, scale);
    MultipliesOne(Z(p), scale);
  }

  lemma MultipliesOne(c: int, scale: int)
    requires 0 <= c <= FP_1 && 0 <= scale < TWO31
    ensures MulDivNearest(c, scale, FP_1) == Some(HalfUp(Times(c, scale), FP_1))
  {
    MulUpTo(c, FP_1, scale, scale);
    HalfUpMonotone(0, Times(c, scale), FP_1);
    HalfUpMonotone(Times(c, scale), Times(FP_1, scale), FP_1);
    HalfUpZero(FP_1);
    HalfUpUnique(Times(FP_1, scale), FP_1, scale);
    hide HalfUp;
  }

  // The three parts of a color add up to its scale, up to one unit.
  lemma DividedSum(p: Point, inverse: int)
    requires InTriangle(p) && inverse > LEAST_WHITE
    ensures Divisible(p, inverse)
    ensures Abs(MulDivNearest(p.x, FP_1, inverse).value + MulDivNearest(p.y, FP_1, inverse).value
                + MulDivNearest(Z(p), FP_1, inverse).value - Reciprocal(inverse)) <= 1
  {
    DividesOne(p.x, inverse);
    DividesOne(p.y, inverse);
    DividesOne(Z(p), inverse);
    ReciprocalRange(inverse);
    HalfUpError(Times(p.x, FP_1), inverse);
    HalfUpError(Times(p.y, FP_1), inverse);
    HalfUpError(Times(Z(p), FP_1), inverse);
    HalfUpError(FP_SQUARE, inverse);
    assert Times(p.x, FP_1) + Times(p.y, FP_1) + Times(Z(p), FP_1) == FP_SQUARE;
    var x, y, z := HalfUp(Times(p.x, FP_1), inverse), HalfUp(Times(p.y, FP_1), inverse), HalfUp(Times(Z(p), FP_1), inverse);
    var whole := HalfUp(FP_SQUARE, inverse);
    hide HalfUp, MulDivNearest, Reciprocal;
    FourTerms(inverse, x, y, z, whole);
    WithinOne(inverse, x + y + z - whole, 4 * inverse);
  }

  lemma FourTerms(d: int, x: int, y: int, z: int, w: int)
    ensures Times(d, x + y + z - w) == Times(d, x) + Times(d, y) + Times(d, z) - Times(d, w)
  {
  }

  lemma WithinOne(d: int, e: int, bound: int)
    requires d > 0 && bound == 4 * d && -bound < 2 * Times(d, e) < bound
    ensures Abs(e) <= 1
  {
    if e >= 2 {
      StepApart(d, e, 1);
    }
    if e <= -2 {
      StepApart(d, -1, e);
    }
    assert Times(d, 1) == d && Times(d, -1) == -d;
  }

  lemma MultipliedSum(p: Point, scale: int)
    requires InTriangle(p) && 0 <= scale < TWO31
    ensures Multipliable(p, scale)
    ensures Abs(MulDivNearest(p.x, scale, FP_1).value + MulDivNearest(p.y, scale, FP_1).value
                + MulDivNearest(Z(p), scale, FP_1).value - scale) <= 1
  {
    MultipliesOne(p.x, scale);
    MultipliesOne(p.y, scale);
    MultipliesOne(Z(p), scale);
    HalfUpError(Times(p.x, scale), FP_1);
    HalfUpError(Times(p.y, scale), FP_1);
    HalfUpError(Times(Z(p), scale), FP_1);
    assert Times(p.x, scale) + Times(p.y, scale) + Times(Z(p), scale) == Times(FP_1, scale) by {
      WeightedSum(Z(p), p.x, p.y, scale, 0, 0);
      assert Times(p.x, 0) == 0 && Times(p.y, 0) == 0;
    }
    hide HalfUp, MulDivNearest;
  }

  // The end points add up to the white whose Y is 1, up to three units.
  lemma WhiteRecovered(xyz: EndPoints, xy: Chromaticities)
    requires Accepted(xy) && xy.white.y >= LEAST_WHITE && Filled(xyz, xy)
    ensures Abs(xyz.redX + xyz.redY + xyz.redZ + xyz.greenX + xyz.greenY + xyz.greenZ
                + xyz.blueX + xyz.blueY + xyz.blueZ - Reciprocal(xy.white.y)) <= 3
  {
    hide RedInverse, GreenInverse, HalfUp, MulDivNearest, Reciprocal;
    BlueOverflowsExactly(xy);
    DividedSum(xy.red, RedInverse(xy).value);
    DividedSum(xy.green, GreenInverse(xy).value);
    MultipliedSum(xy.blue, BlueRest(xy));
  }

  // A coordinate of a color whose inverse scale is given, up to the rounding
  predicate Nearby(c: int, inverse: int, k: int) {
    2 * Abs(Times(inverse, k) - FP_1 * c) <= inverse
  }

  // The same for a color whose scale is given
  predicate NearbyScaled(c: int, scale: int, k: int) {
    2 * Abs(FP_1 * k - Times(c, scale)) <= FP_1
  }

  // The chromaticities are recovered from the end points and their scales, up to the rounding.
  lemma ChromaticityRecovered(xyz: EndPoints, xy: Chromaticities)
    requires Accepted(xy) && xy.white.y >= LEAST_WHITE && Filled(xyz, xy)
    ensures
      var r := RedInverse(xy).value;
      Nearby(xy.red.x, r, xyz.redX) && Nearby(xy.red.y, r, xyz.redY) && Nearby(Z(xy.red), r, xyz.redZ)
    ensures
      var g := GreenInverse(xy).value;
      Nearby(xy.green.x, g, xyz.greenX) && Nearby(xy.green.y, g, xyz.greenY) && Nearby(Z(xy.green), g, xyz.greenZ)
    ensures
      var s := BlueRest(xy);
      && s > 0 && NearbyScaled(xy.blue.x, s, xyz.blueX) && NearbyScaled(xy.blue.y, s, xyz.blueY)
      && NearbyScaled(Z(xy.blue), s, xyz.blueZ)
  {
    hide RedInverse, GreenInverse, HalfUp, MulDivNearest, Reciprocal, Times;
    var r, g, s := RedInverse(xy).value, GreenInverse(xy).value, BlueRest(xy);
    BlueOverflowsExactly(xy);
    OneRecovered(xy.red.x, r);
    OneRecovered(xy.red.y, r);
    OneRecovered(Z(xy.red), r);
    OneRecovered(xy.green.x, g);
    OneRecovered(xy.green.y, g);
    OneRecovered(Z(xy.green), g);
    OneScaled(xy.blue.x, s);
    OneScaled(xy.blue.y, s);
    OneScaled(Z(xy.blue), s);
  }

  lemma OneScaled(c: int, scale: int)
    requires 0 <= c <= FP_1 && 0 <= scale < TWO31
    ensures MulDivNearest(c, scale, FP_1).Some? && NearbyScaled(c, scale, MulDivNearest(c, scale, FP_1).value)
  {
    MultipliesOne(c, scale);
    HalfUpError(Times(c, scale), FP_1);
  }

  lemma OneRecovered(c: int, inverse: int)
    requires 0 <= c <= FP_1 && inverse > LEAST_WHITE
    ensures MulDivNearest(c, FP_1, inverse).Some?
    ensures Nearby(c, inverse, MulDivNearest(c, FP_1, inverse).value)
  {
    DividesOne(c, inverse);
    HalfUpError(Times(c, FP_1), inverse);
    assert Times(c, FP_1) == FP_1 * c;
  }

  // --------------------------------------------------------------------- the white point

  // The solution of Cramer's rule for any affine function c of the points, such as x or y
  predicate Solves(c: int, d: int, e: int, w: int, red: int, green: int, all: int) {
    Times(c - e, red) + Times(d - e, green) == Times(w - e, all)
  }

  lemma CramerY(xy: Chromaticities)
    ensures Solves(xy.red.y, xy.green.y, xy.blue.y, xy.white.y, Det(xy.green, xy.white, xy.blue),
                   Det(xy.white, xy.red, xy.blue), Det(xy.green, xy.red, xy.blue))
  {
    var r, g, b, w := xy.red, xy.green, xy.blue, xy.white;
    hide Times;
    EliminateY(r.x - b.x, r.y - b.y, g.x - b.x, g.y - b.y, w.x - b.x, w.y - b.y);
  }

  lemma CramerX(xy: Chromaticities)
    ensures Solves(xy.red.x, xy.green.x, xy.blue.x, xy.white.x, Det(xy.green, xy.white, xy.blue),
                   Det(xy.white, xy.red, xy.blue), Det(xy.green, xy.red, xy.blue))
  {
    var r, g, b, w := xy.red, xy.green, xy.blue, xy.white;
    hide Times;
    EliminateX(r.x - b.x, r.y - b.y, g.x - b.x, g.y - b.y, w.x - b.x, w.y - b.y);
  }

  lemma EliminateX(rx: int, ry: int, gx: int, gy: int, wx: int, wy: int)
    ensures Times(rx, Times(gx, wy) - Times(gy, wx)) + Times(gx, Times(wx, ry) - Times(wy, rx))
         == Times(wx, Times(gx, ry) - Times(gy, rx))
  {
    assert rx * (gx * wy - gy * wx) == rx * gx * wy - rx * gy * wx;
    assert gx * (wx * ry - wy * rx) == gx * wx * ry - gx * wy * rx;
    assert wx * (gx * ry - gy * rx) == wx * gx * ry - wx * gy * rx;
  }

  lemma EliminateY(rx: int, ry: int, gx: int, gy: int, wx: int, wy: int)
    ensures Times(ry, Times(gx, wy) - Times(gy, wx)) + Times(gy, Times(wx, ry) - Times(wy, rx))
         == Times(wy, Times(gx, ry) - Times(gy, rx))
  {
    assert ry * (gx * wy - gy * wx) == ry * gx * wy - ry * gy * wx;
    assert gy * (wx * ry - wy * rx) == gy * wx * ry - gy * wy * rx;
    assert wy * (gx * ry - gy * rx) == wy * gx * ry - wy * gy * rx;
  }

  // The determinants divided by 7 miss the solution by their rounding.
  lemma CramerSevenths(c: int, d: int, e: int, w: int, red: int, green: int, all: int, dr: int, dg: int, da: int)
    requires Abs(c - e) <= FP_1 && Abs(d - e) <= FP_1 && Abs(w - e) <= FP_1
    requires Solves(c, d, e, w, dr, dg, da)
    requires Abs(7 * red - dr) <= 7 && Abs(7 * green - dg) <= 7 && Abs(7 * all - da) <= 7
    ensures Abs(Times(c - e, red) + Times(d - e, green) - Times(w - e, all)) <= 3 * FP_1
  {
    OffBySeven(c - e, red, dr);
    OffBySeven(d - e, green, dg);
    OffBySeven(w - e, all, da);
    hide Times;
  }

  lemma OffBySeven(c: int, s: int, d: int)
    requires Abs(c) <= FP_1 && Abs(7 * s - d) <= 7
    ensures Abs(7 * Times(c, s) - Times(c, d)) <= 7 * FP_1
  {
    assert 7 * (c * s) - c * d == c * (7 * s - d);
    MulUpTo(Abs(c), FP_1, Abs(7 * s - d), 7);
    SignOfProduct(c, 7 * s - d);
  }

  function Size(x: real): real {
    if x < 0.0 then -x else x
  }

  // How far the reciprocal of a rounded inverse is from the exact one
  function InverseError(r: real): real
    requires r >= 1.0
  {
    1.0 / (r * (2.0 * r - 1.0))
  }

  function Prod(x: real, y: real): real {
    x * y
  }

  // The ratio x of white and inverse is close to the ratio y of the determinants.
  lemma InverseClose(w: real, d: real, n: real, r: real, x: real, y: real)
    requires w > 0.0 && d > 0.0 && n > 0.0 && r >= 1.0 && 2.0 * Size(Prod(n, r) - Prod(w, d)) <= n
    requires Prod(x, r) == w && Prod(y, d) == n
    ensures Size(x - y) <= Prod(w, InverseError(r))
  {
    hide Prod, InverseError, Size;
    RatioRemainder(w, d, n, r, y);
    RatioScaled(w, r, x, y);
    ErrorIs(w, r);
    SizeNatural(x - y);
    CloseEnough(r, 2.0 * r - 1.0, Size(x - y), y, w, Prod(w, InverseError(r)));
  }

  lemma SizeNatural(x: real)
    ensures Size(x) >= 0.0
  {
  }

  lemma ErrorIs(w: real, r: real)
    requires r >= 1.0
    ensures Prod(Prod(w, InverseError(r)), Prod(r, 2.0 * r - 1.0)) == w
  {
    var i, k := InverseError(r), r * (2.0 * r - 1.0);
    assert i * k == 1.0;
    assert (w * i) * k == w * (i * k);
  }

  lemma RatioRemainder(w: real, d: real, n: real, r: real, y: real)
    requires d > 0.0 && Prod(y, d) == n && 2.0 * Size(Prod(n, r) - Prod(w, d)) <= n
    ensures 2.0 * Size(Prod(y, r) - w) <= y
  {
    assert n * r == d * (y * r);
    assert n * r - w * d == d * (y * r - w);
    PositiveFactor(d, y * r - w, y);
  }

  lemma RatioScaled(w: real, r: real, x: real, y: real)
    requires r >= 1.0 && Prod(x, r) == w && 2.0 * Size(Prod(y, r) - w) <= y
    ensures 2.0 * Prod(r, Size(x - y)) <= y && Prod(y, 2.0 * r - 1.0) <= 2.0 * w
  {
    assert y * r - w == r * (y - x);
    PositiveSize(r, y - x);
    assert Size(y - x) == Size(x - y);
    assert y * (2.0 * r - 1.0) == 2.0 * (y * r) - y;
  }

  lemma Cancel(k: real, a: real, b: real)
    requires k > 0.0 && k * a <= k * b
    ensures a <= b
  {
    assert k * (b - a) >= 0.0;
  }

  lemma PositiveFactor(d: real, a: real, b: real)
    requires d > 0.0 && 2.0 * Size(d * a) <= d * b
    ensures 2.0 * Size(a) <= b
  {
    PositiveSize(d, a);
    Cancel(d, 2.0 * Size(a), b);
  }

  lemma PositiveSize(d: real, a: real)
    requires d > 0.0
    ensures Size(d * a) == d * Size(a)
  {
  }

  lemma CloseEnough(r: real, k: real, e: real, y: real, w: real, z: real)
    requires r >= 1.0 && k >= 1.0 && e >= 0.0 && 2.0 * Prod(r, e) <= y && Prod(y, k) <= 2.0 * w && Prod(z, Prod(r, k)) == w
    ensures e <= z
  {
    assert 2.0 * (r * e) * k <= y * k;
    assert 2.0 * (r * e) * k == 2.0 * ((r * k) * e);
    assert r * k >= 1.0;
    assert (r * k) * e <= (r * k) * z;
    Cancel(r * k, e, z);
  }

  // What the inverse is the nearest integer of
  lemma InverseIs(w: int, all: int, part: int, inverse: int)
    requires MulDivNearest(w, all, part) == Some(inverse) && inverse > w >= LEAST_WHITE
    ensures 2 * Abs(Times(Abs(part), inverse) - Times(w, Abs(all))) <= Abs(part)
    ensures part != 0 && all != 0 && (part > 0 <==> all > 0)
  {
    var n := Times(w, all);
    assert n == 0 <==> all == 0;
    assert n > 0 <==> all > 0;
    if part > 0 {
      HalfUpError(n, part);
      if n <= 0 {
        HalfUpMonotone(n, 0, part);
        HalfUpZero(part);
      }
    } else if part < 0 {
      HalfUpError(-n, -part);
      if n >= 0 {
        HalfUpMonotone(-n, 0, -part);
        HalfUpZero(-part);
      }
    }
    assert Times(w, -all) == -n;
    hide HalfUp;
  }

  lemma RealTimes(x: int, y: int)
    ensures Times(x, y) as real == Prod(x as real, y as real)
  {
  }

  lemma RealAbs(x: int)
    ensures Abs(x) as real == Size(x as real)
  {
  }

  lemma RatioClose(w: int, all: int, part: int, inverse: int, x: real, y: real)
    requires MulDivNearest(w, all, part) == Some(inverse) && inverse > w >= LEAST_WHITE
    requires Prod(x, inverse as real) == w as real && Prod(y, all as real) == part as real
    ensures all != 0 && Size(x - y) <= Prod(w as real, InverseError(inverse as real))
  {
    InverseIs(w, all, part, inverse);
    hide *;
    RemainderIsReal(w, Abs(all), Abs(part), inverse);
    RatioOf(part, all, y);
    InverseClose(w as real, Abs(all) as real, Abs(part) as real, inverse as real, x, y);
  }

  lemma RemainderIsReal(w: int, d: int, n: int, r: int)
    requires 2 * Abs(Times(n, r) - Times(w, d)) <= n
    ensures 2.0 * Size(Prod(n as real, r as real) - Prod(w as real, d as real)) <= n as real
  {
    RealTimes(n, r);
    RealTimes(w, d);
    RealAbs(Times(n, r) - Times(w, d));
    hide Times, Prod;
  }

  lemma RatioOf(part: int, all: int, y: real)
    requires all != 0 && part != 0 && (part > 0 <==> all > 0) && Prod(y, all as real) == part as real
    ensures Prod(y, Abs(all) as real) == Abs(part) as real && Abs(all) > 0 && Abs(part) > 0
  {
  }

  // The balance of red, green and white, which should be zero, with the shares x and y of white
  lemma BalanceSmall(a: real, b: real, c: real, x: real, y: real, p: real, q: real,
                     red: real, green: real, all: real, dx: real, dy: real)
    requires Size(a) <= 100000.0 && Size(b) <= 100000.0 && all != 0.0
    requires Size(Prod(a, red) + Prod(b, green) - Prod(c, all)) <= 300000.0
    requires Prod(p, all) == red && Prod(q, all) == green && Size(x - p) <= dx && Size(y - q) <= dy
    ensures Size(Prod(a, x) + Prod(b, y) - c) <= 300000.0 / Size(all) + 100000.0 * (dx + dy)
  {
    hide Prod;
    var exact := Prod(a, p) + Prod(b, q) - c;
    var t := Prod(a, red) + Prod(b, green) - Prod(c, all);
    ScaledBalance(a, b, c, p, q, all, red, green);
    SizeDivided(exact, all, t, 300000.0);
    SmallProduct(a, x, p, dx);
    SmallProduct(b, y, q, dy);
    ThreeSizes(exact, Prod(a, x) - Prod(a, p), Prod(b, y) - Prod(b, q));
  }

  lemma ScaledBalance(a: real, b: real, c: real, p: real, q: real, all: real, red: real, green: real)
    requires Prod(p, all) == red && Prod(q, all) == green
    ensures Prod(all, Prod(a, p) + Prod(b, q) - c) == Prod(a, red) + Prod(b, green) - Prod(c, all)
  {
    assert all * (a * p) == a * (p * all);
    assert all * (b * q) == b * (q * all);
  }

  lemma SizeDivided(a: real, d: real, t: real, bound: real)
    requires d != 0.0 && t == Prod(d, a) && Size(t) <= bound
    ensures Size(a) <= bound / Size(d)
  {
    var z := bound / Size(d);
    assert z * Size(d) == bound;
    SizeOfProduct(d, a);
    Cancel(Size(d), Size(a), z);
  }

  lemma SmallProduct(a: real, x: real, p: real, bound: real)
    requires Size(a) <= 100000.0 && Size(x - p) <= bound
    ensures Size(Prod(a, x) - Prod(a, p)) <= 100000.0 * bound
  {
    assert Prod(a, x) - Prod(a, p) == Prod(a, x - p);
    SizeOfProduct(a, x - p);
    SmallFactor(Size(a), Size(x - p));
    hide Size, Prod;
  }

  lemma SizeOfProduct(a: real, b: real)
    ensures Size(Prod(a, b)) == Prod(Size(a), Size(b))
  {
  }

  lemma SmallFactor(a: real, b: real)
    requires 0.0 <= a <= 100000.0 && b >= 0.0
    ensures Prod(a, b) <= 100000.0 * b
  {
  }

  lemma ThreeSizes(a: real, b: real, c: real)
    ensures Size(a + b + c) <= Size(a) + Size(b) + Size(c)
  {
  }

  // An integer that is nearest to n/r, where v is the exact quotient
  lemma NearQuotient(r: real, k: real, n: real, v: real)
    requires r > 0.0 && Prod(v, r) == n && 2.0 * Size(Prod(r, k) - n) <= r
    ensures 2.0 * Size(k - v) <= 1.0
  {
    assert Prod(r, k) - n == r * (k - v);
    PositiveFactor(r, k - v, 1.0);
  }

  // Red or green: u is 100000 by white, and x is white by the inverse.
  lemma ColorTerm(c: int, inverse: int, k: int, white: int, u: real, x: real)
    requires inverse > 0 && Nearby(c, inverse, k)
    requires Prod(u, white as real) == 100000.0 && Prod(x, inverse as real) == white as real
    ensures 2.0 * Size(k as real - Prod(u, Prod(c as real, x))) <= 1.0
  {
    RealTimes(inverse, k);
    RealAbs(Times(inverse, k) - FP_1 * c);
    hide Times, Abs;
    var v := Prod(u, Prod(c as real, x));
    Regroup(u, c as real, x, inverse as real, white as real);
    hide Prod;
    NearQuotient(inverse as real, k as real, 100000.0 * c as real, v);
  }

  lemma Regroup(u: real, c: real, x: real, r: real, w: real)
    requires Prod(u, w) == 100000.0 && Prod(x, r) == w
    ensures Prod(Prod(u, Prod(c, x)), r) == 100000.0 * c
  {
    assert u * (c * x) * r == c * (u * (x * r));
  }

  // The scale of a color or of white
  lemma ScaleTerm(inverse: int, white: int, u: real, x: real)
    requires inverse >= LEAST_WHITE
    requires Prod(u, white as real) == 100000.0 && Prod(x, inverse as real) == white as real
    ensures 2.0 * Size(Reciprocal(inverse) as real - 100000.0 * Prod(u, x)) <= 1.0
  {
    ReciprocalRange(inverse);
    HalfUpError(FP_SQUARE, inverse);
    hide Reciprocal, HalfUp;
    assert FP_SQUARE == FP_1 * FP_1;
    ColorTerm(FP_1, inverse, Reciprocal(inverse), white, u, x);
    assert Prod(u, Prod(100000.0, x)) == 100000.0 * Prod(u, x) by { assert u * (100000.0 * x) == 100000.0 * (u * x); }
  }

  lemma BlueTerm(e: real, k: real, scale: real, t: real)
    requires 0.0 <= e <= 100000.0 && 2.0 * Size(100000.0 * k - Prod(e, scale)) <= 100000.0
    requires 2.0 * Size(scale - 100000.0 * t) <= 3.0
    ensures Size(k - Prod(e, t)) <= 2.0
  {
    SmallProduct(e, scale, 100000.0 * t, 1.5);
    assert Prod(e, 100000.0 * t) == 100000.0 * Prod(e, t) by { assert e * (100000.0 * t) == 100000.0 * (e * t); }
    hide Prod;
  }

  // What the terms add up to, less the term of white
  lemma TermsBalance(u: real, c: real, d: real, e: real, w: real, x: real, y: real)
    ensures Prod(u, Prod(c, x)) + Prod(u, Prod(d, y)) + Prod(e, Prod(u, 1.0 - x - y)) - Prod(u, w)
         == Prod(u, Prod(c - e, x) + Prod(d - e, y) - (w - e))
  {
    assert e * (u * (1.0 - x - y)) == u * (e * (1.0 - x - y));
    assert e * (1.0 - x - y) == e - e * x - e * y;
    assert (c - e) * x == c * x - e * x;
    assert (d - e) * y == d * y - e * y;
    var a, b, f, g := c * x, d * y, e * x, e * y;
    assert u * a + u * b + u * (e - f - g) - u * w == u * ((a - f) + (b - g) - (w - e));
  }

  // The bound on what is lost of white
  function WhiteError(white: int, all: int, red: int, green: int): real
    requires white > 0 && all != 0 && red > 0 && green > 0
  {
    3.0 + Prod(100000.0 / white as real, 300000.0 / Size(all as real))
    + 10000000000.0 * (InverseError(red as real) + InverseError(green as real))
  }

  lemma ErrorScaled(u: real, w: real, t: real, i: real, j: real)
    requires Prod(u, w) == 100000.0
    ensures Prod(u, t + 100000.0 * (Prod(w, i) + Prod(w, j))) == Prod(u, t) + 10000000000.0 * (i + j)
  {
    assert u * (w * i) == 100000.0 * i;
    assert u * (w * j) == 100000.0 * j;
    assert u * (t + 100000.0 * (w * i + w * j)) == u * t + 100000.0 * (u * (w * i)) + 100000.0 * (u * (w * j));
  }

  lemma LargerProd(u: real, a: real, b: real)
    requires u > 0.0 && Size(a) <= b
    ensures Size(Prod(u, a)) <= Prod(u, b)
  {
    PositiveSize(u, a);
    assert u * Size(a) <= u * b;
  }

  lemma BlueScaled(white: int, r: int, g: int, scale: int, u: real, x: real, y: real)
    requires white >= LEAST_WHITE && r >= LEAST_WHITE && g >= LEAST_WHITE
    requires scale == Reciprocal(white) - Reciprocal(r) - Reciprocal(g) && Prod(u, white as real) == 100000.0
    requires Prod(x, r as real) == white as real && Prod(y, g as real) == white as real
    ensures 2.0 * Size(scale as real - 100000.0 * Prod(u, 1.0 - x - y)) <= 3.0
  {
    hide Reciprocal;
    ScaleTerm(white, white, u, 1.0);
    ScaleTerm(r, white, u, x);
    ScaleTerm(g, white, u, y);
    assert Prod(u, 1.0 - x - y) == Prod(u, 1.0) - Prod(u, x) - Prod(u, y);
    hide Prod;
  }

  // One coordinate of the three colors and of white: k, l and m are its values in the end points.
  lemma CoordinateRecovered(c: int, d: int, e: int, w: int, white: int, all: int, red: int, green: int,
                            r: int, g: int, k: int, l: int, m: int, scale: int, u: real, x: real, y: real)
    requires MulDivNearest(white, all, red) == Some(r) && MulDivNearest(white, all, green) == Some(g)
    requires r > white >= LEAST_WHITE && g > white && all != 0
    requires 0 <= c <= FP_1 && 0 <= d <= FP_1 && 0 <= e <= FP_1
    requires Abs(Times(c - e, red) + Times(d - e, green) - Times(w - e, all)) <= 3 * FP_1
    requires Nearby(c, r, k) && Nearby(d, g, l) && NearbyScaled(e, scale, m)
    requires scale == Reciprocal(white) - Reciprocal(r) - Reciprocal(g)
    requires u == 100000.0 / white as real && x == white as real / r as real && y == white as real / g as real
    ensures Size((k + l + m) as real - Prod(u, w as real)) <= WhiteError(white, all, r, g)
  {
    var p, q := red as real / all as real, green as real / all as real;
    Quotients(white, all, red, green, r, g, u, x, y, p, q);
    hide Size, Prod, Times, Reciprocal, MulDivNearest, InverseError, Abs;
    ColorTerm(c, r, k, white, u, x);
    ColorTerm(d, g, l, white, u, y);
    BlueScaled(white, r, g, scale, u, x, y);
    ScaledToReal(m, e, scale);
    BlueTerm(e as real, m as real, scale as real, Prod(u, 1.0 - x - y));
    RatioClose(white, all, red, r, x, p);
    RatioClose(white, all, green, g, y, q);
    BalanceIsReal(c - e, d - e, w - e, red, green, all);
    Apart(c, e);
    Apart(d, e);
    var i, j := InverseError(r as real), InverseError(g as real);
    BalanceSmall((c - e) as real, (d - e) as real, (w - e) as real, x, y, p, q, red as real, green as real, all as real,
                 Prod(white as real, i), Prod(white as real, j));
    var t := 300000.0 / Size(all as real);
    var balance := Prod((c - e) as real, x) + Prod((d - e) as real, y) - (w - e) as real;
    LargerProd(u, balance, t + 100000.0 * (Prod(white as real, i) + Prod(white as real, j)));
    ErrorScaled(u, white as real, t, i, j);
    TermsBalance(u, c as real, d as real, e as real, w as real, x, y);
    Collect(k as real, l as real, m as real, Prod(u, Prod(c as real, x)), Prod(u, Prod(d as real, y)),
            Prod(e as real, Prod(u, 1.0 - x - y)), Prod(u, w as real), Prod(u, balance),
            Prod(u, t) + 10000000000.0 * (i + j));
  }

  lemma Quotients(white: int, all: int, red: int, green: int, r: int, g: int, u: real, x: real, y: real, p: real, q: real)
    requires white > 0 && all != 0 && r > 0 && g > 0
    requires u == 100000.0 / white as real && x == white as real / r as real && y == white as real / g as real
    requires p == red as real / all as real && q == green as real / all as real
    ensures u > 0.0 && Prod(u, white as real) == 100000.0
    ensures Prod(x, r as real) == white as real && Prod(y, g as real) == white as real
    ensures Prod(p, all as real) == red as real && Prod(q, all as real) == green as real
  {
  }

  lemma ScaledToReal(m: int, e: int, scale: int)
    requires NearbyScaled(e, scale, m)
    ensures 2.0 * Size(100000.0 * m as real - Prod(e as real, scale as real)) <= 100000.0
  {
    RealTimes(e, scale);
    RealAbs(FP_1 * m - Times(e, scale));
    hide Times, Prod;
  }

  lemma BalanceIsReal(a: int, b: int, c: int, red: int, green: int, all: int)
    requires Abs(Times(a, red) + Times(b, green) - Times(c, all)) <= 3 * FP_1
    ensures Size(Prod(a as real, red as real) + Prod(b as real, green as real) - Prod(c as real, all as real)) <= 300000.0
  {
    RealTimes(a, red);
    RealTimes(b, green);
    RealTimes(c, all);
    RealAbs(Times(a, red) + Times(b, green) - Times(c, all));
    hide Times, Prod;
  }

  lemma Apart(c: int, e: int)
    requires 0 <= c <= FP_1 && 0 <= e <= FP_1
    ensures Size((c - e) as real) <= 100000.0
  {
  }

  lemma Collect(k: real, l: real, m: real, a: real, b: real, f: real, w: real, balance: real, bound: real)
    requires 2.0 * Size(k - a) <= 1.0 && 2.0 * Size(l - b) <= 1.0 && Size(m - f) <= 2.0
    requires a + b + f - w == balance && Size(balance) <= bound
    ensures Size(k + l + m - w) <= 3.0 + bound
  {
  }

  // The sums of the X and of the Y of the three colors are those of white, whose Y is 1: the
  // less they miss it the larger the determinant and the inverses are.
  lemma WhitePointRecovered(xyz: EndPoints, xy: Chromaticities)
    requires Accepted(xy) && xy.white.y >= LEAST_WHITE && Filled(xyz, xy)
    ensures Sevenths(xy.green, xy.red, xy.blue) != 0
    ensures
      var error := WhiteError(xy.white.y, Sevenths(xy.green, xy.red, xy.blue), RedInverse(xy).value, GreenInverse(xy).value);
      && Size((xyz.redY + xyz.greenY + xyz.blueY) as real - 100000.0) <= error
      && Size((xyz.redX + xyz.greenX + xyz.blueX) as real - 100000.0 * xy.white.x as real / xy.white.y as real) <= error
  {
    hide WhiteError, MulDivNearest, Reciprocal, Sevenths, Times, Det;
    var r, g, b, w := xy.red, xy.green, xy.blue, xy.white;
    var red, green, scale := RedInverse(xy).value, GreenInverse(xy).value, BlueRest(xy);
    var all, forRed, forGreen := Sevenths(g, r, b), Sevenths(g, w, b), Sevenths(w, r, b);
    BlueOverflowsExactly(xy);
    InverseIs(w.y, all, forRed, red);
    SeventhsFit(g, r, b);
    SeventhsFit(g, w, b);
    SeventhsFit(w, r, b);
    ChromaticityRecovered(xyz, xy);
    CramerX(xy);
    CramerY(xy);
    CramerSevenths(r.x, g.x, b.x, w.x, forRed, forGreen, all, Det(g, w, b), Det(w, r, b), Det(g, r, b));
    CramerSevenths(r.y, g.y, b.y, w.y, forRed, forGreen, all, Det(g, w, b), Det(w, r, b), Det(g, r, b));
    hide RedInverse, GreenInverse, Solves, Filled, Accepted;
    var u, x, y := 100000.0 / w.y as real, w.y as real / red as real, w.y as real / green as real;
    CoordinateRecovered(r.x, g.x, b.x, w.x, w.y, all, forRed, forGreen, red, green, xyz.redX, xyz.greenX, xyz.blueX, scale,
                        u, x, y);
    CoordinateRecovered(r.y, g.y, b.y, w.y, w.y, all, forRed, forGreen, red, green, xyz.redY, xyz.greenY, xyz.blueY, scale,
                        u, x, y);
    WhiteTerm(w.x, w.y, u);
    WhiteTerm(w.y, w.y, u);
  }

  lemma WhiteTerm(c: int, white: int, u: real)
    requires white > 0 && u == 100000.0 / white as real
    ensures Prod(u, c as real) == 100000.0 * c as real / white as real
    ensures c == white ==> Prod(u, c as real) == 100000.0
  {
  }

  // For the chromaticities of sRGB the sums miss those of white by less than 5 units.
  const SRGB := Chromaticities(Point(64000, 33000), Point(30000, 60000), Point(15000, 6000), Point(31270, 32900))

  lemma SeventhsAre(p: Point, q: Point, o: Point, l: int, m: int)
    requires -7 < 2 * (7 * l - Times(p.x - o.x, q.y - o.y)) <= 7 && -7 < 2 * (7 * m - Times(p.y - o.y, q.x - o.x)) <= 7
    ensures Sevenths(p, q, o) == l - m
  {
    HalfUpUnique(Times(p.x - o.x, q.y - o.y), 7, l);
    HalfUpUnique(Times(p.y - o.y, q.x - o.x), 7, m);
    hide HalfUp;
  }

  lemma StandardSevenths()
    ensures Sevenths(SRGB.green, SRGB.red, SRGB.blue) == -320142857
    ensures Sevenths(SRGB.green, SRGB.white, SRGB.blue) == -67868572
    ensures Sevenths(SRGB.white, SRGB.red, SRGB.blue) == -125544286
  {
    hide Sevenths;
    SeventhsAre(SRGB.green, SRGB.red, SRGB.blue, 57857143, 378000000);
    SeventhsAre(SRGB.green, SRGB.white, SRGB.blue, 57642857, 125511429);
    SeventhsAre(SRGB.white, SRGB.red, SRGB.blue, 62755714, 188300000);
  }

  lemma StandardInverses()
    ensures RedInverse(SRGB) == Some(155193) && GreenInverse(SRGB) == Some(83896)
  {
    StandardSevenths();
    hide Sevenths;
  }

  lemma StandardError()
    ensures Accepted(SRGB)
    ensures WhiteError(32900, Sevenths(SRGB.green, SRGB.red, SRGB.blue), RedInverse(SRGB).value, GreenInverse(SRGB).value) < 5.0
  {
    StandardSevenths();
    StandardInverses();
    hide Sevenths, RedInverse, GreenInverse, MulDivNearest;
    assert Wrapped(BlueRest(SRGB)) == 120320 by {
      assert Reciprocal(32900) == 303951 && Reciprocal(155193) == 64436 && Reciprocal(83896) == 119195;
    }
    assert InverseError(155193 as real) < 0.00000000003;
    assert InverseError(83896 as real) < 0.00000000008;
  }
}
