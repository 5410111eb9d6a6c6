// The interlace macros and the passes they describe (3rdParty/libpng/png.h:2631-2691).
module Adam7 {
  import opened Bits

  const PASSES := 7

  // --------------------------------------------------------------------- the macros

  function StartRow(pass: nat): nat
    requires pass < PASSES
  {
    And(Shl(And(1, TWO32 - 1 - pass), 3 - Shr(pass, 1)), 7)
  }

  function StartCol(pass: nat): nat
    requires pass < PASSES
  {
    And(Shl(And(1, pass), 3 - Shr(pass + 1, 1)), 7)
  }

  function RowOffset(pass: nat): nat
    requires pass < PASSES
  {
    if pass > 2 then Shr(8, Shr(pass - 1, 1)) else 8
  }

  function ColOffset(pass: nat): nat
    requires pass < PASSES
  {
    Shl(1, Shr(7 - pass, 1))
  }

  function RowShift(pass: nat): nat
    requires pass < PASSES
  {
    if pass > 2 then Shr(8 - pass, 1) else 3
  }

  function ColShift(pass: nat): nat
    requires pass < PASSES
  {
    if pass > 1 then Shr(7 - pass, 1) else 3
  }

  function PassRows(height: nat, pass: nat): nat
    requires pass < PASSES
  {
    Shr(Natural(height + ((Shl(1, RowShift(pass)) - 1) - StartRow(pass))), RowShift(pass))
  }

  function PassCols(width: nat, pass: nat): nat
    requires pass < PASSES
  {
    Shr(Natural(width + ((Shl(1, ColShift(pass)) - 1) - StartCol(pass))), ColShift(pass))
  }

  // An unsigned number of 32 bits; nothing wraps, see CountsFit.
  function Natural(x: int): nat {
    if x < 0 then 0 else x
  }

  function RowFromPassRow(y: nat, pass: nat): nat
    requires pass < PASSES
  {
    Shl(y, RowShift(pass)) + StartRow(pass)
  }

  function ColFromPassCol(x: nat, pass: nat): nat
    requires pass < PASSES
  {
    Shl(x, ColShift(pass)) + StartCol(pass)
  }

  function PassMask(pass: nat, off: nat): nat
    requires pass < PASSES && off <= 1
  {
    Or(And(Shr(0x110145AF, Shl((7 - off) - pass, 2)), 0xF), And(Shr(0x01145AF0, Shl((7 - off) - pass, 2)), 0xF0))
  }

  predicate RowInPass(y: nat, pass: nat)
    requires pass < PASSES
  {
    And(Shr(PassMask(pass, 0), And(y, 7)), 1) != 0
  }

  predicate ColInPass(x: nat, pass: nat)
    requires pass < PASSES
  {
    And(Shr(PassMask(pass, 1), And(x, 7)), 1) != 0
  }

  // --------------------------------------------------------------------- their values

  // First row, first column, and the steps to the next
  function Grid(pass: nat): (nat, nat, nat, nat)
    requires pass < PASSES
    ensures Grid(pass).0 < Grid(pass).2 && Grid(pass).1 < Grid(pass).3
  {
    match pass
    case 0 => (0, 0, 8, 8)
    case 1 => (0, 4, 8, 8)
    case 2 => (4, 0, 8, 4)
    case 3 => (0, 2, 4, 4)
    case 4 => (2, 0, 4, 2)
    case 5 => (0, 1, 2, 2)
    case _ => (1, 0, 2, 1)
  }

  predicate OnGrid(n: nat, step: nat, start: nat)
    requires step > 0
  {
    n % step == start
  }

  // The numbers below n that are on the grid
  function Count(n: nat, step: nat, start: nat): nat
    requires start < step
  {
    (n + (step - 1 - start)) / step
  }

  lemma Starts(pass: nat)
    requires pass < PASSES
    ensures StartRow(pass) == Grid(pass).0 && StartCol(pass) == Grid(pass).1
  {
    StartRowIs(pass);
    StartColIs(pass);
    hide StartRow, StartCol;
  }

  lemma StartRowIs(pass: nat)
    requires pass < PASSES
    ensures StartRow(pass) == if pass % 2 == 1 then 0 else [0, 4, 2, 1][pass / 2]
  {
    LowBit(TWO32 - 1 - pass);
    ShrValues(pass);
    hide And, Shl, Shr;
    StartValue(And(1, TWO32 - 1 - pass), 3 - Shr(pass, 1));
  }

  lemma StartColIs(pass: nat)
    requires pass < PASSES
    ensures StartCol(pass) == if pass % 2 == 0 then 0 else [4, 2, 1][pass / 2]
  {
    LowBit(pass);
    ShrValues(pass);
    hide And, Shl, Shr;
    StartValue(And(1, pass), 3 - Shr(pass + 1, 1));
  }

  lemma StartValue(bit: nat, shift: nat)
    requires bit <= 1 && shift <= 3
    ensures And(Shl(bit, shift), 7) ==
              if bit == 0 || shift == 3 then 0 else if shift == 2 then 4 else if shift == 1 then 2 else 1
  {
    Low3(Shl(bit, shift));
    Pow2Values();
    hide And;
  }

  lemma LowBit(x: nat)
    ensures And(1, x) == x % 2
  {
    AndStep(1, x);
  }

  lemma Low3(x: nat)
    ensures And(x, 7) == x % 8
  {
    AndMask(x, 3);
    Pow2Values();
  }

  lemma ShrValues(x: nat)
    ensures Shr(x, 1) == x / 2 && Shr(x + 1, 1) == (x + 1) / 2
  {
    Pow2Values();
  }

  lemma Shifts(pass: nat)
    requires pass < PASSES
    ensures Shl(1, RowShift(pass)) == Pow2(RowShift(pass)) == Grid(pass).2
    ensures Shl(1, ColShift(pass)) == Pow2(ColShift(pass)) == Grid(pass).3
  {
    ShrValues(7 - pass);
    Pow2Values();
  }

  // The offset macros are the inverse of the shift macros.
  lemma OffsetsAreSteps(pass: nat)
    requires pass < PASSES
    ensures RowOffset(pass) == Grid(pass).2 && ColOffset(pass) == Grid(pass).3
  {
    ShrValues(7 - pass);
    if pass > 2 {
      ShrValues(pass - 1);
    }
    Pow2Values();
  }

  // --------------------------------------------------------------------- the masks

  function Sixteen(k: nat): nat
    requires k < 8
  {
    [0x1, 0x10, 0x100, 0x1000, 0x10000, 0x100000, 0x1000000, 0x10000000][k]
  }

  lemma Nibbles(k: nat)
    requires k < 8
    ensures Shl(k, 2) == 4 * k && Pow2(4 * k) == Sixteen(k)
  {
    Pow2Values();
    if k > 4 {
      Pow2Sum(16, 4 * (k - 4));
    }
  }

  lemma HighNibble(x: nat)
    ensures And(x, 0xF0) == 16 * (x / 16 % 16)
  {
    Pow2Values();
    AndAppend(x / 16, x % 16, 15, 0, 4);
    AndZero(x % 16);
    AndMask(x / 16, 4);
    assert Append(x / 16, x % 16, 4) == x && Append(15, 0, 4) == 0xF0;
  }

  // The mask from the two constants divided by p
  lemma MaskIs(pass: nat, off: nat, p: nat, q: nat, qRest: nat, r: nat, rRest: nat)
    requires pass < PASSES && off <= 1 && p == Sixteen((7 - off) - pass)
    requires 0x110145AF == p * q + qRest && qRest < p
    requires 0x01145AF0 == p * r + rRest && rRest < p
    ensures PassMask(pass, off) == Mix(q, r)
  {
    var k := (7 - off) - pass;
    Nibbles(k);
    Divide(0x110145AF, p, q, qRest);
    Divide(0x01145AF0, p, r, rRest);
    assert Shr(0x110145AF, Shl(k, 2)) == q && Shr(0x01145AF0, Shl(k, 2)) == r;
    hide Sixteen, Shr, Shl;
    MixNibbles(q, r);
  }

  // The low digit of q and the one above it of r
  function Mix(q: nat, r: nat): nat {
    q % 16 + 16 * (r / 16 % 16)
  }

  lemma MixNibbles(q: nat, r: nat)
    ensures Or(And(q, 0xF), And(r, 0xF0)) == Mix(q, r)
  {
    Pow2Values();
    AndMask(q, 4);
    HighNibble(r);
    OrAppend(0, q % 16, r / 16 % 16, 0, 4);
    assert Append(0, q % 16, 4) == q % 16 && Append(r / 16 % 16, 0, 4) == 16 * (r / 16 % 16);
    assert Or(0, r / 16 % 16) == r / 16 % 16 && Or(q % 16, 0) == q % 16;
    hide And, Or, Pow2;
  }

  function RowMask(pass: nat): nat
    requires pass < PASSES
  {
    match pass
    case 0 => 0x01
    case 1 => 0x01
    case 2 => 0x10
    case 3 => 0x11
    case 4 => 0x44
    case 5 => 0x55
    case _ => 0xAA
  }

  function ColMask(pass: nat): nat
    requires pass < PASSES
  {
    match pass
    case 0 => 0x01
    case 1 => 0x10
    case 2 => 0x11
    case 3 => 0x44
    case 4 => 0x55
    case 5 => 0xAA
    case _ => 0xFF
  }

  // The masks have the bits of the rows and columns of the pass.
  lemma RowMasks(pass: nat)
    requires pass < PASSES
    ensures PassMask(pass, 0) == RowMask(pass)
  {
    hide PassMask, RowMask;
    if pass < 2 {
      FirstRowMasks(pass);
    } else if pass < 4 {
      MiddleRowMasks(pass);
    } else {
      LastRowMasks(pass);
    }
  }

  lemma FirstRowMasks(pass: nat)
    requires pass < 2
    ensures PassMask(pass, 0) == RowMask(pass)
  {
    hide PassMask, Shl, Shr, And, Or, Pow2, Quotient;
    if pass == 0 {
      MaskIs(0, 0, 0x10000000, 0x1, 0x10145AF, 0x0, 0x1145AF0);
    } else {
      MaskIs(1, 0, 0x1000000, 0x11, 0x145AF, 0x1, 0x145AF0);
    }
  }

  lemma MiddleRowMasks(pass: nat)
    requires 2 <= pass < 4
    ensures PassMask(pass, 0) == RowMask(pass)
  {
    hide PassMask, Shl, Shr, And, Or, Pow2, Quotient;
    if pass == 2 {
      MaskIs(2, 0, 0x100000, 0x110, 0x145AF, 0x11, 0x45AF0);
    } else {
      MaskIs(3, 0, 0x10000, 0x1101, 0x45AF, 0x114, 0x5AF0);
    }
  }

  lemma LastRowMasks(pass: nat)
    requires 4 <= pass < PASSES
    ensures PassMask(pass, 0) == RowMask(pass)
  {
    hide PassMask, Shl, Shr, And, Or, Pow2, Quotient;
    if pass == 4 {
      MaskIs(4, 0, 0x1000, 0x11014, 0x5AF, 0x1145, 0xAF0);
    } else if pass == 5 {
      MaskIs(5, 0, 0x100, 0x110145, 0xAF, 0x1145A, 0xF0);
    } else {
      MaskIs(6, 0, 0x10, 0x110145A, 0xF, 0x1145AF, 0x0);
    }
  }

  lemma ColMasks(pass: nat)
    requires pass < PASSES
    ensures PassMask(pass, 1) == ColMask(pass)
  {
    hide PassMask, ColMask;
    if pass < 2 {
      FirstColMasks(pass);
    } else if pass < 4 {
      MiddleColMasks(pass);
    } else {
      LastColMasks(pass);
    }
  }

  lemma FirstColMasks(pass: nat)
    requires pass < 2
    ensures PassMask(pass, 1) == ColMask(pass)
  {
    hide PassMask, Shl, Shr, And, Or, Pow2, Quotient;
    if pass == 0 {
      MaskIs(0, 1, 0x1000000, 0x11, 0x145AF, 0x1, 0x145AF0);
    } else {
      MaskIs(1, 1, 0x100000, 0x110, 0x145AF, 0x11, 0x45AF0);
    }
  }

  lemma MiddleColMasks(pass: nat)
    requires 2 <= pass < 4
    ensures PassMask(pass, 1) == ColMask(pass)
  {
    hide PassMask, Shl, Shr, And, Or, Pow2, Quotient;
    if pass == 2 {
      MaskIs(2, 1, 0x10000, 0x1101, 0x45AF, 0x114, 0x5AF0);
    } else {
      MaskIs(3, 1, 0x1000, 0x11014, 0x5AF, 0x1145, 0xAF0);
    }
  }

  lemma LastColMasks(pass: nat)
    requires 4 <= pass < PASSES
    ensures PassMask(pass, 1) == ColMask(pass)
  {
    hide PassMask, Shl, Shr, And, Or, Pow2, Quotient;
    if pass == 4 {
      MaskIs(4, 1, 0x100, 0x110145, 0xAF, 0x1145A, 0xF0);
    } else if pass == 5 {
      MaskIs(5, 1, 0x10, 0x110145A, 0xF, 0x1145AF, 0x0);
    } else {
      MaskIs(6, 1, 0x1, 0x110145AF, 0x0, 0x1145AF0, 0x0);
    }
  }

  predicate Bit(mask: nat, k: nat)
    requires k < 8
  {
    mask / [1, 2, 4, 8, 16, 32, 64, 128][k] % 2 == 1
  }

  lemma BitTest(mask: nat, y: nat)
    ensures And(Shr(mask, And(y, 7)), 1) != 0 <==> Bit(mask, y % 8)
  {
    Low3(y);
    Pow2Values();
    AndMask(Shr(mask, y % 8), 1);
    hide And;
  }

  lemma RowBits(pass: nat, k: nat)
    requires pass < PASSES && k < 8
    ensures Bit(RowMask(pass), k) <==> OnGrid(k, Grid(pass).2, Grid(pass).0)
  {
  }

  lemma ColBits(pass: nat, k: nat)
    requires pass < PASSES && k < 8
    ensures Bit(ColMask(pass), k) <==> OnGrid(k, Grid(pass).3, Grid(pass).1)
  {
  }

  lemma Residue(y: nat, pass: nat)
    requires pass < PASSES
    ensures OnGrid(y % 8, Grid(pass).2, Grid(pass).0) <==> OnGrid(y, Grid(pass).2, Grid(pass).0)
    ensures OnGrid(y % 8, Grid(pass).3, Grid(pass).1) <==> OnGrid(y, Grid(pass).3, Grid(pass).1)
  {
    Residue8(y, Grid(pass).2);
    Residue8(y, Grid(pass).3);
  }

  lemma Residue8(y: nat, step: nat)
    requires step == 1 || step == 2 || step == 4 || step == 8
    ensures y % 8 % step == y % step
  {
    DivMod(y, 8);
    var q, r := y / 8, y % 8;
    if step == 2 {
      Divide(y, 2, 4 * q + r / 2, r % 2);
    } else if step == 4 {
      Divide(y, 4, 2 * q + r / 4, r % 4);
    }
  }

  // The macros with a mask say which rows and columns the pass has.
  lemma InPassExactly(y: nat, pass: nat)
    requires pass < PASSES
    ensures RowInPass(y, pass) <==> OnGrid(y, Grid(pass).2, Grid(pass).0)
    ensures ColInPass(y, pass) <==> OnGrid(y, Grid(pass).3, Grid(pass).1)
  {
    RowMasks(pass);
    ColMasks(pass);
    BitTest(PassMask(pass, 0), y);
    BitTest(PassMask(pass, 1), y);
    RowBits(pass, y % 8);
    ColBits(pass, y % 8);
    Residue(y, pass);
    hide PassMask, Bit, And, Shr, Grid, OnGrid;
  }

  // --------------------------------------------------------------------- counting

  lemma Counts(n: nat, pass: nat)
    requires pass < PASSES
    ensures PassRows(n, pass) == Count(n, Grid(pass).2, Grid(pass).0)
    ensures PassCols(n, pass) == Count(n, Grid(pass).3, Grid(pass).1)
  {
    Starts(pass);
    Shifts(pass);
    hide StartRow, StartCol, RowShift, ColShift, Grid, Pow2;
  }

  // Nothing wraps in 32 bits for a size a PNG may have.
  lemma CountsFit(n: nat, pass: nat)
    requires pass < PASSES && n < TWO31
    ensures 0 <= n + ((Shl(1, RowShift(pass)) - 1) - StartRow(pass)) < TWO32
    ensures 0 <= n + ((Shl(1, ColShift(pass)) - 1) - StartCol(pass)) < TWO32
  {
    Starts(pass);
    Shifts(pass);
    hide StartRow, StartCol, RowShift, ColShift, Pow2;
  }

  // The next row is counted if it is in the pass.
  lemma RowsStep(n: nat, pass: nat)
    requires pass < PASSES
    ensures PassRows(n + 1, pass) == PassRows(n, pass) + if RowInPass(n, pass) then 1 else 0
    ensures PassCols(n + 1, pass) == PassCols(n, pass) + if ColInPass(n, pass) then 1 else 0
    ensures PassRows(0, pass) == 0 && PassCols(0, pass) == 0
  {
    hide PassRows, PassCols, RowInPass, ColInPass, Grid, Count, OnGrid;
    Counts(n, pass);
    Counts(n + 1, pass);
    Counts(0, pass);
    InPassExactly(n, pass);
    CountStep(n, Grid(pass).2, Grid(pass).0);
    CountStep(n, Grid(pass).3, Grid(pass).1);
  }

  lemma CountStep(n: nat, step: nat, start: nat)
    requires start < step
    ensures Count(n + 1, step, start) == Count(n, step, start) + if OnGrid(n, step, start) then 1 else 0
    ensures Count(0, step, start) == 0
  {
    DivMod(n, step);
    var q, r := n / step, n % step;
    Divide(step - 1 - start, step, 0, step - 1 - start);
    if r == start {
      Next(step, q);
      Divide(n + (step - 1 - start), step, q, step - 1);
      Divide(n + 1 + (step - 1 - start), step, q + 1, 0);
    } else if r < start {
      Divide(n + (step - 1 - start), step, q, r + (step - 1 - start));
      Divide(n + 1 + (step - 1 - start), step, q, r + 1 + (step - 1 - start));
    } else {
      Next(step, q);
      Divide(n + (step - 1 - start), step, q + 1, r - 1 - start);
      Divide(n + 1 + (step - 1 - start), step, q + 1, r - start);
    }
  }

  lemma Next(step: nat, q: nat)
    ensures step * (q + 1) == step * q + step
  {
  }

  // --------------------------------------------------------------------- the partition

  // The passes of an 8 by 8 tile, from 1 to 7, as section 8.2 of the PNG Specification
  // (Second Edition) gives them
  function TileRow(y: nat): string
    requires y < 8
    ensures |TileRow(y)| == 8
  {
    match y
    case 0 => "16462646"
    case 2 => "56565656"
    case 4 => "36463646"
    case 6 => "56565656"
    case _ => "77777777"
  }

  function PassOf(y: nat, x: nat): (pass: nat)
    ensures pass < PASSES
  {
    TilePass(y % 8, x % 8)
  }

  function TilePass(y: nat, x: nat): (pass: nat)
    requires y < 8 && x < 8
    ensures pass < PASSES
  {
    TileRow(y)[x] as int - '1' as int
  }

  // A pixel is in a pass by the masks exactly if the tile says so: every pixel is in one pass.
  lemma MasksFollowTile(y: nat, x: nat, pass: nat)
    requires pass < PASSES
    ensures RowInPass(y, pass) && ColInPass(x, pass) <==> PassOf(y, x) == pass
  {
    InPassExactly(y, pass);
    InPassExactly(x, pass);
    Residue(y, pass);
    Residue(x, pass);
    TileGrid(y % 8, x % 8, pass);
    hide RowInPass, ColInPass, Grid, TilePass, OnGrid;
  }

  lemma TileGrid(y: nat, x: nat, pass: nat)
    requires y < 8 && x < 8 && pass < PASSES
    ensures OnGrid(y, Grid(pass).2, Grid(pass).0) && OnGrid(x, Grid(pass).3, Grid(pass).1) <==> TilePass(y, x) == pass
  {
  }

  // --------------------------------------------------------------------- the pass images

  // A row of the image is in a pass exactly if it comes from a row of the pass image, and
  // then from the one row that its shift names.
  lemma RowsMap(y: nat, r: nat, height: nat, pass: nat)
    requires pass < PASSES
    ensures RowFromPassRow(r, pass) == y <==> RowInPass(y, pass) && r == Shr(y, RowShift(pass))
    ensures RowFromPassRow(r, pass) == y ==> (y < height <==> r < PassRows(height, pass))
  {
    Starts(pass);
    Shifts(pass);
    Counts(height, pass);
    InPassExactly(y, pass);
    var step, start := Grid(pass).2, Grid(pass).0;
    hide StartRow, RowShift, Grid, RowInPass, PassRows;
    OnGridExactly(y, r, height, step, start);
    hide Quotient, Count, OnGrid;
  }

  lemma ColsMap(x: nat, c: nat, width: nat, pass: nat)
    requires pass < PASSES
    ensures ColFromPassCol(c, pass) == x <==> ColInPass(x, pass) && c == Shr(x, ColShift(pass))
    ensures ColFromPassCol(c, pass) == x ==> (x < width <==> c < PassCols(width, pass))
  {
    Starts(pass);
    Shifts(pass);
    Counts(width, pass);
    InPassExactly(x, pass);
    var step, start := Grid(pass).3, Grid(pass).1;
    hide StartCol, ColShift, Grid, ColInPass, PassCols;
    OnGridExactly(x, c, width, step, start);
    hide Quotient, Count, OnGrid;
  }

  lemma OnGridExactly(y: nat, r: nat, n: nat, step: nat, start: nat)
    requires start < step
    ensures r * step + start == y <==> OnGrid(y, step, start) && r == Quotient(y, step)
    ensures r * step + start == y ==> (y < n <==> r < Count(n, step, start))
  {
    DivMod(y, step);
    if r * step + start == y {
      Divide(y, step, r, start);
      DivMod(n + (step - 1 - start), step);
      var k, rest := Count(n, step, start), (n + (step - 1 - start)) % step;
      Between(step, k, r);
    }
  }

  lemma Between(step: nat, k: int, r: int)
    requires step > 0
    ensures r < k ==> step * k >= step * r + step
    ensures r >= k ==> step * k <= step * r
  {
    if r < k {
      MulAtLeast(step, k - r);
      assert step * (k - r) == step * k - step * r;
    } else if r > k {
      MulAtLeast(step, r - k);
      assert step * (r - k) == step * r - step * k;
    }
  }

  // Where a pixel of the image is found
  datatype Place = Place(pass: nat, row: nat, col: nat)

  predicate InPassImage(p: Place, width: nat, height: nat) {
    p.pass < PASSES && p.row < PassRows(height, p.pass) && p.col < PassCols(width, p.pass)
  }

  function PlaceOf(y: nat, x: nat): Place {
    Place(PassOf(y, x), Shr(y, RowShift(PassOf(y, x))), Shr(x, ColShift(PassOf(y, x))))
  }

  // The pass images and the image correspond one to one: every pixel is at exactly one place
  // of the seven pass images, and every place holds one pixel of the image.
  lemma Partition(p: Place, y: nat, x: nat, width: nat, height: nat)
    requires p.pass < PASSES
    ensures RowFromPassRow(p.row, p.pass) == y && ColFromPassCol(p.col, p.pass) == x <==> p == PlaceOf(y, x)
    ensures p == PlaceOf(y, x) ==> (y < height && x < width <==> InPassImage(p, width, height))
  {
    hide RowFromPassRow, ColFromPassCol, PassRows, PassCols, RowInPass, ColInPass, PassOf, Shr, RowShift, ColShift;
    RowsMap(y, p.row, height, p.pass);
    ColsMap(x, p.col, width, p.pass);
    MasksFollowTile(y, x, p.pass);
  }

  // --------------------------------------------------------------------- the sizes

  // The pixels of the first n passes
  function PassPixels(width: nat, height: nat, n: nat): nat
    requires n <= PASSES
  {
    if n == 0 then 0
    else PassPixels(width, height, n - 1) + Area(PassRows(height, n - 1), PassCols(width, n - 1))
  }

  function Area(rows: nat, cols: nat): nat {
    rows * cols
  }

  // Those of one row of the image
  function RowPixels(y: nat, width: nat, n: nat): nat
    requires n <= PASSES
  {
    if n == 0 then 0
    else RowPixels(y, width, n - 1) + if RowInPass(y, n - 1) then PassCols(width, n - 1) else 0
  }

  lemma PassPixelsUnfold(width: nat, height: nat, n: nat)
    requires 0 < n <= PASSES
    ensures PassPixels(width, height, n) ==
              PassPixels(width, height, n - 1) + Area(PassRows(height, n - 1), PassCols(width, n - 1))
  {
    hide PassRows, PassCols, Area;
  }

  lemma RowPixelsUnfold(y: nat, width: nat, n: nat)
    requires 0 < n <= PASSES
    ensures RowPixels(y, width, n) ==
              RowPixels(y, width, n - 1) + if RowInPass(y, n - 1) then PassCols(width, n - 1) else 0
  {
    hide RowInPass, PassCols;
  }

  lemma HoldersUnfold(y: nat, x: nat, n: nat)
    requires 0 < n <= PASSES
    ensures Holders(y, x, n) == Holders(y, x, n - 1) + if RowInPass(y, n - 1) && ColInPass(x, n - 1) then 1 else 0
  {
    hide RowInPass, ColInPass;
  }

  lemma NoPasses(y: nat, x: nat, width: nat, height: nat)
    ensures PassPixels(width, height, 0) == 0 && RowPixels(y, width, 0) == 0 && Holders(y, x, 0) == 0
  {
    hide RowInPass, ColInPass, PassRows, PassCols, Area;
  }

  lemma {:induction false} AddRow(width: nat, height: nat, n: nat)
    requires n <= PASSES
    ensures PassPixels(width, height + 1, n) == PassPixels(width, height, n) + RowPixels(height, width, n)
    ensures PassPixels(width, 0, n) == 0
  {
    hide *;
    if n == 0 {
      NoPasses(height, width, width, height);
      NoPasses(height, width, width, height + 1);
      NoPasses(height, width, width, 0);
    } else {
      AddRow(width, height, n - 1);
      RowsStep(height, n - 1);
      RowsStep(0, n - 1);
      PassPixelsUnfold(width, height, n);
      PassPixelsUnfold(width, height + 1, n);
      PassPixelsUnfold(width, 0, n);
      RowPixelsUnfold(height, width, n);
      AreaStep(PassRows(height, n - 1), PassCols(width, n - 1));
    }
  }

  lemma AreaStep(rows: nat, cols: nat)
    ensures Area(rows + 1, cols) == Area(rows, cols) + cols && Area(0, cols) == 0
  {
  }

  // The passes that hold a pixel
  function Holders(y: nat, x: nat, n: nat): nat
    requires n <= PASSES
  {
    if n == 0 then 0 else Holders(y, x, n - 1) + if RowInPass(y, n - 1) && ColInPass(x, n - 1) then 1 else 0
  }

  lemma {:induction false} AddPixel(y: nat, width: nat, n: nat)
    requires n <= PASSES
    ensures RowPixels(y, width + 1, n) == RowPixels(y, width, n) + Holders(y, width, n)
    ensures RowPixels(y, 0, n) == 0
  {
    hide *;
    if n == 0 {
      NoPasses(y, width, width, 0);
      NoPasses(y, width, width + 1, 0);
      NoPasses(y, width, 0, 0);
    } else {
      AddPixel(y, width, n - 1);
      RowsStep(width, n - 1);
      RowPixelsUnfold(y, width, n);
      RowPixelsUnfold(y, width + 1, n);
      RowPixelsUnfold(y, 0, n);
      HoldersUnfold(y, width, n);
    }
  }

  lemma {:induction false} OneHolder(y: nat, x: nat, n: nat)
    requires n <= PASSES
    ensures Holders(y, x, n) == if PassOf(y, x) < n then 1 else 0
  {
    hide *;
    if n == 0 {
      NoPasses(y, x, 0, 0);
    } else {
      OneHolder(y, x, n - 1);
      HoldersUnfold(y, x, n);
      MasksFollowTile(y, x, n - 1);
    }
  }

  lemma {:induction false} RowPixelsAll(y: nat, width: nat)
    ensures RowPixels(y, width, PASSES) == width
  {
    hide RowPixels, Holders, PassOf;
    if width == 0 {
      AddPixel(y, 0, PASSES);
    } else {
      RowPixelsAll(y, width - 1);
      AddPixel(y, width - 1, PASSES);
      OneHolder(y, width - 1, PASSES);
    }
  }

  // The passes together have as many pixels as the image.
  lemma {:induction false} PixelsAddUp(width: nat, height: nat)
    ensures PassPixels(width, height, PASSES) == Area(width, height)
  {
    hide PassPixels, RowPixels, Area;
    AreaStep(height - (if height > 0 then 1 else 0), width);
    AreaCommutes(width, height);
    AreaCommutes(width, height - (if height > 0 then 1 else 0));
    if height == 0 {
      AddRow(width, 0, PASSES);
    } else {
      PixelsAddUp(width, height - 1);
      AddRow(width, height - 1, PASSES);
      RowPixelsAll(height - 1, width);
    }
  }

  lemma AreaCommutes(width: nat, height: nat)
    ensures Area(width, height) == Area(height, width)
  {
  }
}
