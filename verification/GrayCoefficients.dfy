// The coefficients of the conversion to gray, which must add up to 32768
// (3rdParty/libpng/png.c:2354-2418).
module GrayCoefficients {
  import opened Wrappers
  import opened Bits
  import opened MulDiv
  import opened FixedPoint

  const WHOLE := 32768

  // What y of total is of the whole, to the nearest integer
  function Share(y: int, total: int): int
    requires total > 0
  {
    HalfUp(Times(y, WHOLE), total)
  }

  lemma ShareRange(y: int, total: int)
    requires 0 <= y <= total && total > 0
    ensures 0 <= Share(y, total) <= WHOLE
    ensures MulDivNearest(y, WHOLE, total) == Some(Share(y, total))
    ensures -total < 2 * (Times(total, Share(y, total)) - WHOLE * y) <= total
  {
    assert Times(y, WHOLE) == WHOLE * y && Times(total, WHOLE) == WHOLE * total && Times(0, WHOLE) == 0;
    HalfUpMonotone(0, Times(y, WHOLE), total);
    HalfUpMonotone(Times(y, WHOLE), Times(total, WHOLE), total);
    HalfUpZero(total);
    HalfUpUnique(Times(total, WHOLE), total, WHOLE);
    HalfUpError(Times(y, WHOLE), total);
    hide HalfUp;
  }

  // Rounding three shares to the nearest misses the whole by at most one.
  lemma SharesSum(r: int, g: int, b: int, total: int)
    requires 0 <= r && 0 <= g && 0 <= b && total == r + g + b > 0
    ensures WHOLE - 1 <= Share(r, total) + Share(g, total) + Share(b, total) <= WHOLE + 1
  {
    ShareRange(r, total);
    ShareRange(g, total);
    ShareRange(b, total);
    var x, y, z := Share(r, total), Share(g, total), Share(b, total);
    hide Share;
    ThreeTerms(total, x, y, z);
    WithinTwo(total, x + y + z - WHOLE);
  }

  lemma ThreeTerms(d: int, x: int, y: int, z: int)
    ensures Times(d, x + y + z - WHOLE) == Times(d, x) + Times(d, y) + Times(d, z) - WHOLE * d
  {
  }

  lemma WithinTwo(d: int, e: int)
    requires d > 0 && -3 * d < 2 * Times(d, e) <= 3 * d
    ensures -1 <= e <= 1
  {
    if e >= 2 {
      StepApart(d, e, 1);
    }
    if e <= -2 {
      StepApart(d, -1, e);
    }
    assert Times(d, 1) == d && Times(d, -1) == -d;
  }

  // The coefficient is the nearest share, or one beside it if that is the largest.
  predicate Adjusts(c: int, share: int, largest: bool) {
    0 <= c <= WHOLE && (c == share || (largest && Abs(c - share) == 1))
  }

  // Of equal shares green comes first, then red.
  ghost predicate Balanced(r: int, g: int, b: int, x: int, y: int, z: int) {
    && r + g + b == WHOLE
    && Adjusts(r, x, x > y && x >= z) && Adjusts(g, y, y >= x && y >= z) && Adjusts(b, z, z > x && z > y)
  }

  class ColorSpace {
    var coefficientsSet: bool
    var haveEndPoints: bool
    var redY: int
    var greenY: int
    var blueY: int
    var redCoefficient: int
    var greenCoefficient: int

    constructor () {
      coefficientsSet, haveEndPoints := false, false;
      redY, greenY, blueY, redCoefficient, greenCoefficient := 0, 0, 0, 0, 0;
    }

    // png_colorspace_set_rgb_coefficients.  The coefficient of blue is what is left of the
    // whole.  One of the two errors is raised exactly if a luminance is negative or all are 0.
    method SetRgbCoefficients() returns (ok: bool)
      requires IsInt32(redY) && IsInt32(greenY) && IsInt32(blueY)
      requires IsInt32(redY + greenY) && IsInt32(redY + greenY + blueY)
      modifies `redCoefficient, `greenCoefficient
      ensures coefficientsSet || !haveEndPoints ==>
        ok && redCoefficient == old(redCoefficient) && greenCoefficient == old(greenCoefficient)
      ensures !coefficientsSet && haveEndPoints ==>
        (ok <==> redY >= 0 && greenY >= 0 && blueY >= 0 && redY + greenY + blueY > 0)
      ensures !coefficientsSet && haveEndPoints && ok ==>
        var total := redY + greenY + blueY;
        Balanced(redCoefficient, greenCoefficient, WHOLE - redCoefficient - greenCoefficient,
                 Share(redY, total), Share(greenY, total), Share(blueY, total))
      ensures !ok ==> redCoefficient == old(redCoefficient) && greenCoefficient == old(greenCoefficient)
    {
      hide MulDivNearest, Share, HalfUp, Times, U32;
      ok := true;
      if !coefficientsSet && haveEndPoints {
        var r, g, b := redY, greenY, blueY;
        var total := r + g + b;
        var scaled;
        scaled, r, g, b := Scale(r, g, b, total);
        if scaled {
          r, g, b := Adjust(r, g, b);
          assert 0 <= r <= WHOLE && 0 <= g <= WHOLE && r + g + b == WHOLE;
          hide Balanced;
          if r + g + b != WHOLE {
            ok := false;
          } else {
            redCoefficient := r % 0x10000;
            greenCoefficient := g % 0x10000;
          }
        } else {
          ok := false;
        }
      }
    }

    // The largest coefficient makes up for a sum that is one off.
    static method Adjust(x: int, y: int, z: int) returns (r: int, g: int, b: int)
      requires 0 <= x <= WHOLE && 0 <= y <= WHOLE && 0 <= z <= WHOLE && WHOLE - 1 <= x + y + z <= WHOLE + 1
      ensures Balanced(r, g, b, x, y, z)
    {
      r, g, b := x, y, z;
      var add := 0;
      if r + g + b > WHOLE {
        add := -1;
      } else if r + g + b < WHOLE {
        add := 1;
      }
      if add != 0 {
        if g >= r && g >= b {
          g := g + add;
        } else if r >= g && r >= b {
          r := r + add;
        } else {
          b := b + add;
        }
      }
    }

    // The long condition, with the assignments in it
    static method Scale(y: int, z: int, w: int, total: int) returns (ok: bool, r: int, g: int, b: int)
      requires total == y + z + w
      ensures ok ==> total > 0 && y >= 0 && z >= 0 && w >= 0
      ensures ok ==> 0 <= r <= WHOLE && 0 <= g <= WHOLE && 0 <= b <= WHOLE && WHOLE - 1 <= r + g + b <= WHOLE + 1
      ensures ok ==> r == Share(y, total) && g == Share(z, total) && b == Share(w, total)
      ensures total > 0 && y >= 0 && z >= 0 && w >= 0 ==> ok
    {
      if total > 0 && y >= 0 && z >= 0 && w >= 0 {
        SharesSum(y, z, w, total);
      }
      hide MulDivNearest, Share;
      ok, r, g, b := false, y, z, w;
      if !(total > 0 && r >= 0) { return; }
      var v := MulDivNearest(r, WHOLE, total);
      if total >= y {
        ShareRange(y, total);
      }
      if v == None { return; }
      r := v.value;
      if !(0 <= r <= WHOLE && g >= 0) { return; }
      v := MulDivNearest(g, WHOLE, total);
      if total >= z {
        ShareRange(z, total);
      }
      if v == None { return; }
      g := v.value;
      if !(0 <= g <= WHOLE && b >= 0) { return; }
      v := MulDivNearest(b, WHOLE, total);
      if total >= w {
        ShareRange(w, total);
      }
      if v == None { return; }
      b := v.value;
      ok := 0 <= b <= WHOLE && r + g + b <= WHOLE + 1;
    }
  }
}
