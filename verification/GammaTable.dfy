// The table from 16-bit samples to 8-bit ones (3rdParty/libpng/png.c:3817-3878).
module GammaTable {
  import opened Bits
  import opened MulDiv
  import opened FixedPoint

  const LEVELS := 255     // the largest 8-bit value
  const SCALE := 257      // from 8 to 16 bits

  // png_gamma_16bit_correct for some gamma, whatever its value: it is returned as 16 bits.
  function Correct(g: nat -> nat, x: nat): (y: nat)
    ensures y < TWO16
  {
    g(x) % TWO16
  }

  function Tables(shift: nat): nat
    requires shift <= 8
  {
    Pow2(8 - shift)
  }

  // The largest sample without the bits that are shifted out
  function Largest(shift: nat): nat
    requires shift <= 8
  {
    Pow2(16 - shift) - 1
  }

  // --------------------------------------------------------------------- what it holds

  // The first input that no longer belongs to an 8-bit value
  ghost function Bound(g: nat -> nat, shift: nat, i: nat): nat
    requires shift <= 8
  {
    (Times(Correct(g, SCALE * i + 128), Largest(shift)) + 32768) / 65535 + 1
  }

  // The first 8-bit value from i on whose bound is above the input
  ghost function Level(g: nat -> nat, shift: nat, v: nat, i: nat): (n: nat)
    requires shift <= 8 && i <= LEVELS
    ensures i <= n <= LEVELS
    ensures n < LEVELS ==> v < Bound(g, shift, n)
    ensures forall j :: i <= j < n ==> Bound(g, shift, j) <= v
    decreases LEVELS - i
  {
    if i == LEVELS || v < Bound(g, shift, i) then i else Level(g, shift, v, i + 1)
  }

  ghost function Entry(g: nat -> nat, shift: nat, v: nat): nat
    requires shift <= 8
  {
    SCALE * Level(g, shift, v, 0)
  }

  lemma LevelFacts(g: nat -> nat, shift: nat, v: nat, j: nat)
    requires shift <= 8
    ensures
      var n := Level(g, shift, v, 0);
      (j < n ==> Bound(g, shift, j) <= v) && (j == n < LEVELS ==> v < Bound(g, shift, j))
  {
    hide Bound;
  }

  lemma LevelIs(g: nat -> nat, shift: nat, v: nat, i: nat)
    requires shift <= 8 && i <= LEVELS
    requires forall j :: 0 <= j < i ==> Bound(g, shift, j) <= v
    requires i < LEVELS ==> v < Bound(g, shift, i)
    ensures Entry(g, shift, v) == SCALE * i
  {
    hide Bound;
    var n := Level(g, shift, v, 0);
    LevelFacts(g, shift, v, n);
    LevelFacts(g, shift, v, i);
  }

  // An input of m out of m is above the value x of 65535 if it is to the nearest.
  predicate Above(v: nat, m: nat, x: nat) {
    65535 * v > Times(x, m) + 32768
  }

  lemma BoundExactly(g: nat -> nat, shift: nat, i: nat, v: nat)
    requires shift <= 8
    ensures Bound(g, shift, i) <= v <==> Above(v, Largest(shift), Correct(g, SCALE * i + 128))
  {
    var t := Times(Correct(g, SCALE * i + 128), Largest(shift)) + 32768;
    TimesNat(Correct(g, SCALE * i + 128), Largest(shift));
    DivMod(t, 65535);
    hide Correct, Largest, Times;
  }

  predicate Rises(g: nat -> nat) {
    forall x, y :: 0 <= x <= y < TWO16 ==> g(x) <= g(y) < TWO16
  }

  // For a gamma function that rises the entry of an input is 257 times the one 8-bit value
  // between whose ends, which lie halfway to the values beside it, gamma has the input.
  lemma EntryExactly(g: nat -> nat, shift: nat, v: nat, n: nat)
    requires shift <= 8 && n <= LEVELS && Rises(g)
    ensures Entry(g, shift, v) == SCALE * n <==>
      && (n > 0 ==> Above(v, Largest(shift), g(SCALE * (n - 1) + 128)))
      && (n < LEVELS ==> !Above(v, Largest(shift), g(SCALE * n + 128)))
  {
    hide Bound, Largest, Above, Level, Rises, Correct;
    var l := Level(g, shift, v, 0);
    if n > 0 {
      Uncut(g, n - 1);
      BoundExactly(g, shift, n - 1, v);
      LevelFacts(g, shift, v, n - 1);
    }
    if n < LEVELS {
      Uncut(g, n);
      BoundExactly(g, shift, n, v);
      LevelFacts(g, shift, v, n);
    }
    if l < n {
      LevelFacts(g, shift, v, l);
      BoundsRise(g, shift, l, n - 1);
    }
  }

  lemma Uncut(g: nat -> nat, i: nat)
    requires Rises(g) && i < LEVELS
    ensures Correct(g, SCALE * i + 128) == g(SCALE * i + 128)
  {
  }

  lemma BoundsRise(g: nat -> nat, shift: nat, i: nat, j: nat)
    requires shift <= 8 && i <= j < LEVELS && Rises(g)
    ensures Bound(g, shift, i) <= Bound(g, shift, j)
  {
    Uncut(g, i);
    Uncut(g, j);
    var x, y := Correct(g, SCALE * i + 128), Correct(g, SCALE * j + 128);
    assert x <= y;
    hide Correct, Largest, Rises;
    MulUpTo(x, y, Largest(shift), Largest(shift));
  }

  // --------------------------------------------------------------------- where it is

  function Row(v: nat, shift: nat): nat
    requires shift <= 8
  {
    And(v, Shr(0xff, shift))
  }

  function Column(v: nat, shift: nat): nat
    requires shift <= 8
  {
    Shr(v, 8 - shift)
  }

  lemma Powers(shift: nat)
    requires shift <= 8
    ensures Times(256, Tables(shift)) == Largest(shift) + 1 <= TWO16 && 0 < Tables(shift) <= 256
    ensures Shl(Tables(shift), 8) == Largest(shift) + 1
    ensures Shr(0xff, shift) == Tables(shift) - 1
    ensures Times(Tables(shift), Pow2(shift)) == 256
  {
    Pow2Values();
    Pow2Sum(8, 8 - shift);
    Pow2Sum(8 - shift, shift);
    Pow2Monotone(8 - shift, 8);
    Pow2Monotone(0, 8 - shift);
    Pow2Monotone(0, shift);
    var n, p := Pow2(8 - shift), Pow2(shift);
    assert p * n == 256;
    assert p * (n - 1) == p * n - p;
    Divide(0xff, p, n - 1, p - 1);
    assert n * 256 == 256 * n;
    Pow2Monotone(16 - shift, 16);
  }

  lemma QuotientSmall(x: nat, d: nat, n: nat)
    requires d > 0 && x < Times(n, d)
    ensures x / d < n
  {
    DivMod(x, d);
    if x / d >= n {
      MulUpTo(n, x / d, d, d);
    }
  }

  // The place of an input, and no other input has it.
  lemma PlaceIs(v: nat, shift: nat)
    requires shift <= 8 && v <= Largest(shift)
    ensures Times(Tables(shift), Column(v, shift)) + Row(v, shift) == v
    ensures Row(v, shift) < Tables(shift) && Column(v, shift) < 256
  {
    Powers(shift);
    AndMask(v, 8 - shift);
    var n := Tables(shift);
    DivMod(v, n);
    hide And, Pow2;
    QuotientSmall(v, n, 256);
  }

  lemma PlacesDiffer(v: nat, w: nat, shift: nat)
    requires shift <= 8 && v <= Largest(shift) && w <= Largest(shift)
    requires Row(v, shift) == Row(w, shift) && Column(v, shift) == Column(w, shift)
    ensures v == w
  {
    PlaceIs(v, shift);
    PlaceIs(w, shift);
    hide Row, Column, Largest, Tables;
  }

  ghost predicate Holds(table: array2<nat>, shift: nat, g: nat -> nat, v: nat)
    requires shift <= 8
    reads table
  {
    && Row(v, shift) < table.Length0 && Column(v, shift) < table.Length1
    && table[Row(v, shift), Column(v, shift)] == Entry(g, shift, v)
  }

  // --------------------------------------------------------------------- building it

  lemma BoundFits(x: nat, shift: nat)
    requires shift <= 8 && x < TWO16
    ensures U32(U32(U32(Times(x, Largest(shift))) + 32768) / 65535 + 1) ==
              (Times(x, Largest(shift)) + 32768) / 65535 + 1 <= Largest(shift) + 1
  {
    Powers(shift);
    var m := Largest(shift);
    MulUpTo(x, 65535, m, m);
    MulUpTo(m, 65535, 65535, 65535);
    assert 65535 * m + 32768 < TWO32;
    var t := Times(x, m) + 32768;
    DivMod(t, 65535);
    hide Largest, Tables, Times;
  }

  // One assignment to the table
  method Store(table: array2<nat>, last: nat, out: nat, shift: nat, ghost g: nat -> nat)
    requires shift <= 8 && table.Length0 == Tables(shift) && table.Length1 == 256
    requires last <= Largest(shift) && out == Entry(g, shift, last)
    requires forall v :: 0 <= v < last ==> Holds(table, shift, g, v)
    modifies table
    ensures forall v :: 0 <= v < last + 1 ==> Holds(table, shift, g, v)
  {
    hide Row, Column, Entry, Tables, Largest;
    PlaceIs(last, shift);
    forall v | 0 <= v < last
      ensures Row(v, shift) != Row(last, shift) || Column(v, shift) != Column(last, shift)
    {
      if Row(v, shift) == Row(last, shift) && Column(v, shift) == Column(last, shift) {
        PlacesDiffer(v, last, shift);
      }
    }
    table[Row(last, shift), Column(last, shift)] := out;
    forall v | 0 <= v < last + 1 ensures Holds(table, shift, g, v) {
      if v < last {
        assert old(Holds(table, shift, g, v));
      }
    }
  }

  // The places in the order of their inputs
  ghost predicate InOrder(writes: seq<(nat, nat)>, shift: nat)
    requires shift <= 8
  {
    forall v :: 0 <= v < |writes| ==> writes[v] == (Row(v, shift), Column(v, shift))
  }

  // Where the entries of an 8-bit value end
  ghost function End(g: nat -> nat, shift: nat, i: nat): nat
    requires shift <= 8
  {
    if i < LEVELS then Bound(g, shift, i) else Largest(shift) + 1
  }

  // Both loops that fill the table up to a bound
  method Fill(table: array2<nat>, start: nat, bound: nat, out: nat, shift: nat,
              ghost g: nat -> nat, ghost i: nat, ghost before: seq<(nat, nat)>)
    returns (last: nat, ghost writes: seq<(nat, nat)>)
    requires shift <= 8 && table.Length0 == Tables(shift) && table.Length1 == 256
    requires i <= LEVELS && out == SCALE * i && bound == End(g, shift, i) <= Largest(shift) + 1
    requires start <= Largest(shift) + 1 && |before| == start && InOrder(before, shift)
    requires forall v :: 0 <= v < start ==> Holds(table, shift, g, v)
    requires forall j :: 0 <= j < i ==> Bound(g, shift, j) <= start
    modifies table
    ensures last == (if start < bound then bound else start) && |writes| == last && InOrder(writes, shift)
    ensures forall v :: 0 <= v < last ==> Holds(table, shift, g, v)
  {
    hide Correct, Entry, Bound, Tables, Largest, Row, Column, Level, Holds;
    last, writes := start, before;
    while last < bound
      invariant start <= last <= Largest(shift) + 1
      invariant last <= bound || last == start
      invariant forall v :: 0 <= v < last ==> Holds(table, shift, g, v)
      invariant |writes| == last && InOrder(writes, shift)
    {
      LevelIs(g, shift, last, i);
      Store(table, last, out, shift, g);
      writes := writes + [(Row(last, shift), Column(last, shift))];
      last := last + 1;
    }
  }

  // The loop over the 8-bit values but the last
  method FillLevels(table: array2<nat>, max: nat, shift: nat, g: nat -> nat)
    returns (last: nat, ghost writes: seq<(nat, nat)>)
    requires shift <= 8 && table.Length0 == Tables(shift) && table.Length1 == 256 && max == Largest(shift)
    modifies table
    ensures last <= max + 1 && |writes| == last && InOrder(writes, shift)
    ensures forall v :: 0 <= v < last ==> Holds(table, shift, g, v)
    ensures forall j :: 0 <= j < LEVELS ==> Bound(g, shift, j) <= last
  {
    hide Correct, Entry, Bound, Tables, Largest, Times, U32, Holds, Level, Row, Column, InOrder;
    NoneYet(shift);
    last, writes := 0, [];
    var i := 0;
    while i < LEVELS
      invariant 0 <= i <= LEVELS && last <= max + 1
      invariant forall v :: 0 <= v < last ==> Holds(table, shift, g, v)
      invariant forall j :: 0 <= j < i ==> Bound(g, shift, j) <= last
      invariant |writes| == last && InOrder(writes, shift)
    {
      var out := U32(SCALE * i) % TWO16;
      assert out == SCALE * i by { OutIs(i); }
      var corrected := Correct(g, out + 128);
      BoundFits(corrected, shift);
      BoundIs(g, shift, i);
      var bound := U32(U32(U32(Times(corrected, max)) + 32768) / 65535 + 1);
      last, writes := Fill(table, last, bound, out, shift, g, i, writes);
      i := i + 1;
    }
  }

  lemma OutIs(i: nat)
    requires i <= LEVELS
    ensures U32(SCALE * i) % TWO16 == SCALE * i
  {
  }

  // The writes are the assignments to the table: every cell is assigned once.
  method Build16To8(shift: nat, g: nat -> nat) returns (table: array2<nat>, ghost writes: seq<(nat, nat)>)
    requires shift <= 8
    ensures fresh(table) && table.Length0 == Tables(shift) && table.Length1 == 256
    ensures forall v :: 0 <= v <= Largest(shift) ==> Holds(table, shift, g, v)
    ensures |writes| == Largest(shift) + 1 && InOrder(writes, shift)
    ensures EachOnce(writes, table.Length0, table.Length1)
  {
    hide Bound, Tables, Largest, Times, Shl, Shr, Pow2, Holds, InOrder, EachOnce;
    Powers(shift);
    var num := Tables(shift);
    var max := Largest(shift);
    table := new nat[num, 256];
    var last;
    last, writes := FillLevels(table, max, shift, g);
    last, writes := Fill(table, last, Shl(num, 8), 65535, shift, g, LEVELS, writes);
    WritesOnce(writes, shift);
  }

  lemma NoneYet(shift: nat)
    requires shift <= 8
    ensures InOrder([], shift)
  {
  }

  lemma BoundIs(g: nat -> nat, shift: nat, i: nat)
    requires shift <= 8
    ensures Bound(g, shift, i) == (Times(Correct(g, SCALE * i + 128), Largest(shift)) + 32768) / 65535 + 1
  {
  }

  // --------------------------------------------------------------------- using it

  function Lookup(table: array2<nat>, shift: nat, iv: nat): nat
    requires Shr(And(iv, 0xff), shift) < table.Length0 && Shr(iv, 8) < table.Length1
    reads table
  {
    table[Shr(And(iv, 0xff), shift), Shr(iv, 8)]
  }

  lemma ShrIs(x: nat, k: nat, q: nat, r: nat)
    requires x == Times(Pow2(k), q) + r && r < Pow2(k)
    ensures Shr(x, k) == q
  {
    Divide(x, Pow2(k), q, r);
  }

  lemma PlaceOf(v: nat, shift: nat, q: nat, r: nat)
    requires shift <= 8 && v == Times(Tables(shift), q) + r && r < Tables(shift)
    ensures Row(v, shift) == r && Column(v, shift) == q
  {
    ShrIs(v, 8 - shift, q, r);
    Powers(shift);
    AndMask(v, 8 - shift);
    Divide(v, Tables(shift), q, r);
    hide And, Pow2, Times;
  }

  // Every cell of the table is the place of an input, so that each of them is assigned.
  lemma EveryPlace(r: nat, c: nat, shift: nat)
    requires shift <= 8 && r < Tables(shift) && c < 256
    ensures
      var v := Times(Tables(shift), c) + r;
      0 <= v <= Largest(shift) && Row(v, shift) == r && Column(v, shift) == c
  {
    Powers(shift);
    TimesNat(Tables(shift), c);
    PlacesFit(c, r, Tables(shift));
    PlaceOf(Times(Tables(shift), c) + r, shift, c, r);
    hide Row, Column, Tables, Largest, Times;
  }

  // The places are the cells of the table, each of them once.
  ghost predicate EachOnce(writes: seq<(nat, nat)>, rows: nat, columns: nat) {
    && (forall v, w :: 0 <= v < w < |writes| ==> writes[v] != writes[w])
    && (forall r: nat, c: nat :: (r, c) in writes <==> r < rows && c < columns)
  }

  lemma WritesOnce(writes: seq<(nat, nat)>, shift: nat)
    requires shift <= 8 && |writes| == Largest(shift) + 1 && InOrder(writes, shift)
    ensures EachOnce(writes, Tables(shift), 256)
  {
    hide Row, Column, Tables, Largest;
    forall v, w | 0 <= v < w < |writes| ensures writes[v] != writes[w] {
      if writes[v] == writes[w] {
        PlacesDiffer(v, w, shift);
      }
    }
    forall r: nat, c: nat ensures (r, c) in writes <==> r < Tables(shift) && c < 256 {
      if r < Tables(shift) && c < 256 {
        EveryPlace(r, c, shift);
        assert writes[Times(Tables(shift), c) + r] == (r, c);
      }
      if (r, c) in writes {
        var v :| 0 <= v < |writes| && writes[v] == (r, c);
        PlaceIs(v, shift);
      }
    }
  }

  // The reader finds a sample where its upper bits were stored.
  lemma LookupPlace(iv: nat, shift: nat)
    requires shift <= 8 && iv < TWO16
    ensures Shr(iv, shift) <= Largest(shift)
    ensures Shr(And(iv, 0xff), shift) == Row(Shr(iv, shift), shift)
    ensures Shr(iv, 8) == Column(Shr(iv, shift), shift)
  {
    Powers(shift);
    Pow2Values();
    AndMask(iv, 8);
    var high, low := iv / 256, iv % 256;
    var q, r := low / Pow2(shift), low % Pow2(shift);
    DivMod(low, Pow2(shift));
    QuotientSmall(low, Pow2(shift), Tables(shift));
    SplitTwice(high, q, r, Pow2(shift), Tables(shift));
    PlacesFit(high, q, Tables(shift));
    FromParts(iv, shift, high, low, q, r);
  }

  lemma FromParts(iv: nat, shift: nat, high: nat, low: nat, q: nat, r: nat)
    requires shift <= 8 && q < Tables(shift) && r < Pow2(shift)
    requires Pow2(8) == 256 && 256 * high == Times(256, high)
    requires iv == 256 * high + low == Times(Pow2(shift), Times(Tables(shift), high) + q) + r && low < 256
    requires low == Times(Pow2(shift), q) + r && And(iv, 0xff) == low
    requires Times(Tables(shift), high) + q <= Largest(shift)
    ensures Shr(iv, shift) <= Largest(shift)
    ensures Shr(And(iv, 0xff), shift) == Row(Shr(iv, shift), shift)
    ensures Shr(iv, 8) == Column(Shr(iv, shift), shift)
  {
    hide *;
    ShrIs(iv, 8, high, low);
    ShrIs(low, shift, q, r);
    assert Times(Tables(shift), high) >= 0 by { TimesNat(Tables(shift), high); }
    ShrIs(iv, shift, Times(Tables(shift), high) + q, r);
    PlaceOf(Times(Tables(shift), high) + q, shift, high, q);
  }

  lemma TimesNat(x: nat, y: nat)
    ensures Times(x, y) >= 0
  {
  }

  lemma PlacesFit(high: nat, q: nat, n: nat)
    requires high < 256 && q < n
    ensures Times(n, high) + q < Times(256, n)
  {
    MulUpTo(high, 255, n, n);
  }

  lemma SplitTwice(high: int, q: int, r: int, p: int, n: int)
    requires n * p == 256
    ensures 256 * high + Times(p, q) + r == Times(p, Times(n, high) + q) + r
  {
    assert p * (n * high + q) == p * (n * high) + p * q;
    assert p * (n * high) == (n * p) * high;
  }

  // A larger sample is never shown darker.
  lemma LookupMonotone(table: array2<nat>, shift: nat, g: nat -> nat, x: nat, y: nat)
    requires shift <= 8 && x <= y < TWO16
    requires forall v :: 0 <= v <= Largest(shift) ==> Holds(table, shift, g, v)
    ensures Shr(And(x, 0xff), shift) < table.Length0 && Shr(x, 8) < table.Length1
    ensures Shr(And(y, 0xff), shift) < table.Length0 && Shr(y, 8) < table.Length1
    ensures Lookup(table, shift, x) == Entry(g, shift, Shr(x, shift))
    ensures Lookup(table, shift, x) <= Lookup(table, shift, y) <= 65535
  {
    LookupPlace(x, shift);
    LookupPlace(y, shift);
    ShrMonotone(x, y, shift);
    EntryMonotone(g, shift, Shr(x, shift), Shr(y, shift));
    hide Shr, And, Row, Column, Largest, Entry;
    assert Holds(table, shift, g, Shr(x, shift));
    assert Holds(table, shift, g, Shr(y, shift));
  }

  lemma ShrMonotone(x: nat, y: nat, k: nat)
    requires x <= y
    ensures Shr(x, k) <= Shr(y, k)
  {
    var p := Pow2(k);
    DivMod(x, p);
    DivMod(y, p);
    if x / p > y / p {
      StepApart(p, x / p, y / p);
    }
  }

  lemma EntryMonotone(g: nat -> nat, shift: nat, v: nat, w: nat)
    requires shift <= 8 && v <= w
    ensures Entry(g, shift, v) <= Entry(g, shift, w) <= 65535
  {
    hide Bound;
    var m, n := Level(g, shift, v, 0), Level(g, shift, w, 0);
    LevelFacts(g, shift, v, n);
    LevelFacts(g, shift, w, n);
  }

  // Without a gamma and without a shift the table rounds 16 bits to the nearest 8-bit value.
  lemma IdentityIsNearest(g: nat -> nat, v: nat)
    requires v < TWO16 && forall x: nat :: x < TWO16 ==> Correct(g, x) == x
    ensures Abs(Entry(g, 0, v) - v) <= 128
  {
    hide Level, Bound;
    var n := Level(g, 0, v, 0);
    IdentityBound(g, n);
    LevelFacts(g, 0, v, n);
    if n > 0 {
      IdentityBound(g, n - 1);
      LevelFacts(g, 0, v, n - 1);
    }
  }

  lemma IdentityBound(g: nat -> nat, i: nat)
    requires i <= LEVELS && forall x: nat :: x < TWO16 ==> Correct(g, x) == x
    ensures i < LEVELS ==> Bound(g, 0, i) == SCALE * i + 129
  {
    if i < LEVELS {
      Powers(0);
      Pow2Values();
      var x := SCALE * i + 128;
      assert Largest(0) == 65535;
      Divide(65535 * x + 32768, 65535, x, 32768);
      assert Times(x, 65535) == 65535 * x;
    }
  }
}
