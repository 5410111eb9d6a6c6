// Recognizing the text of a floating point number, a piece at a time
// (3rdParty/libpng/png.c:2556-2704).
module FpNumber {
  import opened Wrappers
  import opened CText

  // --------------------------------------------------------------------- the grammar

  // [+-]?(D+ .? | D* . D+)([eE][+-]?D+)?  The parts of a number, or of its beginning
  datatype Parts = Parts(sign: string, whole: string, dot: bool, fraction: string,
                         e: string, expSign: string, exponent: string)

  const NOTHING := Parts("", "", false, "", "", "", "")

  function Point(dot: bool): string {
    if dot then "." else ""
  }

  function Mantissa(p: Parts): string {
    p.sign + p.whole + Point(p.dot) + p.fraction
  }

  function Power(p: Parts): string {
    p.e + p.expSign + p.exponent
  }

  function Text(p: Parts): string {
    Mantissa(p) + Power(p)
  }

  predicate AllDigits(s: string) {
    forall i :: 0 <= i < |s| ==> IsDigit(s[i])
  }

  predicate IsSign(s: string) {
    s == "" || s == "+" || s == "-"
  }

  // The beginning of a number
  predicate Begins(p: Parts) {
    && IsSign(p.sign) && AllDigits(p.whole) && AllDigits(p.fraction)
    && (p.fraction != "" ==> p.dot)
    && (p.e == "" || p.e == "e" || p.e == "E") && IsSign(p.expSign) && AllDigits(p.exponent)
    && (if p.e == "" then p.expSign == "" && p.exponent == "" else p.whole != "" || p.fraction != "")
  }

  // A number that is complete
  predicate Ends(p: Parts) {
    Begins(p) && (p.whole != "" || p.fraction != "") && (p.e != "" ==> p.exponent != "")
  }

  ghost predicate Viable(t: string) {
    exists p :: Begins(p) && Text(p) == t
  }

  ghost predicate IsNumber(t: string) {
    exists p :: Ends(p) && Text(p) == t
  }

  // --------------------------------------------------------------------- one more character

  function Extend(p: Parts, c: char): Option<Parts> {
    if c == '+' || c == '-' then
      if p.e != "" then if p.expSign == "" && p.exponent == "" then Some(p.(expSign := [c])) else None
      else if p.sign == "" && p.whole == "" && !p.dot then Some(p.(sign := [c]))
      else None
    else if c == '.' then
      if p.e == "" && !p.dot then Some(p.(dot := true)) else None
    else if IsDigit(c) then
      if p.e != "" then Some(p.(exponent := p.exponent + [c]))
      else if p.dot then Some(p.(fraction := p.fraction + [c]))
      else Some(p.(whole := p.whole + [c]))
    else if c == 'e' || c == 'E' then
      if p.e == "" && (p.whole != "" || p.fraction != "") then Some(p.(e := [c])) else None
    else None
  }

  lemma ExtendBegins(p: Parts, c: char)
    requires Begins(p) && Extend(p, c).Some?
    ensures Begins(Extend(p, c).value)
  {
  }

  // The character comes behind everything else.
  lemma ExtendText(p: Parts, c: char)
    requires Begins(p) && Extend(p, c).Some?
    ensures Text(Extend(p, c).value) == Text(p) + [c]
  {
    var q := Extend(p, c).value;
    hide AllDigits, Text, Mantissa, Power;
    if p.e != "" {
      ExtendPower(p, c);
    } else {
      ExtendMantissa(p, c);
    }
    TextIs(p);
    TextIs(q);
    hide *;
    Behind(Mantissa(p), Power(p), Mantissa(q), Power(q), c);
  }

  lemma Behind(m: string, w: string, n: string, v: string, c: char)
    requires (n == m && v == w + [c]) || (n == m + [c] && w == "" && v == "")
    ensures n + v == m + w + [c]
  {
    assert n == m && v == w + [c] ==> m + (w + [c]) == m + w + [c];
  }

  lemma TextIs(p: Parts)
    ensures Text(p) == Mantissa(p) + Power(p)
  {
  }

  lemma ExtendPower(p: Parts, c: char)
    requires Begins(p) && Extend(p, c).Some? && p.e != ""
    ensures Power(Extend(p, c).value) == Power(p) + [c] && Mantissa(Extend(p, c).value) == Mantissa(p)
  {
    var q := Extend(p, c).value;
    hide AllDigits;
    if c == '+' || c == '-' {
      assert Power(p) == p.e && Power(q) == p.e + [c];
    } else {
      assert Power(q) == p.e + p.expSign + (p.exponent + [c]);
    }
  }

  lemma ExtendMantissa(p: Parts, c: char)
    requires Begins(p) && Extend(p, c).Some? && p.e == ""
    ensures
      var q := Extend(p, c).value;
      || (Mantissa(q) == Mantissa(p) && Power(q) == Power(p) + [c])
      || (Mantissa(q) == Mantissa(p) + [c] && Power(p) == "" && Power(q) == "")
  {
    var q := Extend(p, c).value;
    hide AllDigits;
    if c == 'e' || c == 'E' {
      assert Power(p) == "" && Power(q) == [c];
    } else if c == '+' || c == '-' {
      assert Mantissa(p) == "" && Mantissa(q) == [c];
    } else if c == '.' {
      assert Mantissa(p) == p.sign + p.whole && Mantissa(q) == p.sign + p.whole + ".";
    } else if p.dot {
      assert Mantissa(q) == p.sign + p.whole + "." + (p.fraction + [c]);
    } else {
      assert Mantissa(p) == p.sign + p.whole && Mantissa(q) == p.sign + (p.whole + [c]);
    }
  }

  // Every beginning is one shorter extended by its last character.
  function Shorten(p: Parts): (Parts, char)
    requires Begins(p) && Text(p) != ""
  {
    if p.exponent != "" then (p.(exponent := p.exponent[..|p.exponent| - 1]), p.exponent[|p.exponent| - 1])
    else if p.expSign != "" then (p.(expSign := ""), p.expSign[0])
    else if p.e != "" then (p.(e := ""), p.e[0])
    else if p.fraction != "" then (p.(fraction := p.fraction[..|p.fraction| - 1]), p.fraction[|p.fraction| - 1])
    else if p.dot then (p.(dot := false), '.')
    else if p.whole != "" then (p.(whole := p.whole[..|p.whole| - 1]), p.whole[|p.whole| - 1])
    else (p.(sign := ""), p.sign[0])
  }

  lemma ShortenBegins(p: Parts)
    requires Begins(p) && Text(p) != ""
    ensures Begins(Shorten(p).0)
  {
    hide Text;
  }

  lemma ShortenExtend(p: Parts)
    requires Begins(p) && Text(p) != ""
    ensures Begins(Shorten(p).0) && Extend(Shorten(p).0, Shorten(p).1) == Some(p)
    ensures Text(p) == Text(Shorten(p).0) + [Shorten(p).1]
  {
    ShortenBegins(p);
    ExtendShortened(p);
    hide Text, Begins, Extend, Shorten;
    ExtendText(Shorten(p).0, Shorten(p).1);
  }

  lemma LastDigit(s: string)
    requires AllDigits(s) && s != ""
    ensures IsDigit(s[|s| - 1]) && s[..|s| - 1] + [s[|s| - 1]] == s
  {
  }

  lemma LastSign(s: string)
    requires s == "+" || s == "-" || s == "e" || s == "E"
    ensures [s[0]] == s && (s[0] == '+' || s[0] == '-' || s[0] == 'e' || s[0] == 'E')
  {
  }

  lemma ExtendShortened(p: Parts)
    requires Begins(p) && Text(p) != ""
    ensures Extend(Shorten(p).0, Shorten(p).1) == Some(p)
  {
    if p.e != "" {
      ExtendShortenedPower(p);
    } else {
      ExtendShortenedMantissa(p);
    }
    hide *;
  }

  lemma ExtendShortenedPower(p: Parts)
    requires Begins(p) && Text(p) != "" && p.e != ""
    ensures Extend(Shorten(p).0, Shorten(p).1) == Some(p)
  {
    hide AllDigits, Text;
    if p.exponent != "" {
      LastDigit(p.exponent);
    } else if p.expSign != "" {
      LastSign(p.expSign);
    } else {
      LastSign(p.e);
    }
  }

  lemma ExtendShortenedMantissa(p: Parts)
    requires Begins(p) && Text(p) != "" && p.e == ""
    ensures Extend(Shorten(p).0, Shorten(p).1) == Some(p)
  {
    if p.fraction == "" && p.whole == "" && !p.dot {
      assert p.sign != "";
    }
    hide AllDigits, Text;
    if p.fraction != "" {
      LastDigit(p.fraction);
    } else if p.dot {
    } else if p.whole != "" {
      LastDigit(p.whole);
    } else {
      LastSign(p.sign);
    }
  }

  // A text is the beginning of a number in one way only.
  lemma {:induction false} Unambiguous(p: Parts, q: Parts)
    requires Begins(p) && Begins(q) && Text(p) == Text(q)
    ensures p == q
    decreases |Text(p)|
  {
    if Text(p) == "" {
      assert p == NOTHING && q == NOTHING;
    } else {
      hide Text, Begins, Shorten, Extend;
      ShortenExtend(p);
      ShortenExtend(q);
      LastOf(Text(Shorten(p).0), Shorten(p).1, Text(Shorten(q).0), Shorten(q).1);
      Unambiguous(Shorten(p).0, Shorten(q).0);
    }
  }

  lemma LastOf(s: string, c: char, t: string, d: char)
    requires s + [c] == t + [d]
    ensures s == t && c == d && |s| < |s + [c]|
  {
    assert (s + [c])[..|s|] == s && (t + [d])[..|t|] == t;
    assert (s + [c])[|s|] == c;
  }

  // Where a character cannot follow, no number goes on with it.
  lemma StuckIsFinal(p: Parts, c: char)
    requires Begins(p) && Extend(p, c) == None
    ensures !Viable(Text(p) + [c])
  {
    hide Text, Begins, Shorten, Extend;
    forall q | Begins(q) && Text(q) == Text(p) + [c] ensures false {
      ShortenExtend(q);
      LastOf(Text(Shorten(q).0), Shorten(q).1, Text(p), c);
      Unambiguous(p, Shorten(q).0);
    }
  }

  lemma {:induction false} ViablePrefix(t: string, k: nat)
    requires Viable(t) && k <= |t|
    ensures Viable(t[..k])
    decreases |t|
  {
    if k == |t| {
      assert t[..k] == t;
    } else {
      var p :| Begins(p) && Text(p) == t;
      hide Text, Begins, Shorten, Extend;
      ShortenExtend(p);
      assert t[..|t| - 1] == Text(Shorten(p).0);
      assert t[..|t| - 1][..k] == t[..k];
      ViablePrefix(t[..|t| - 1], k);
    }
  }

  // --------------------------------------------------------------------- the automaton

  datatype Phase = Integer | Fraction | Exponent

  // The bits of the state: PNG_FP_STATE, the PNG_FP_SAW flags, and the sticky flags
  datatype State = State(phase: Phase, sawSign: bool, sawDigit: bool, sawDot: bool,
                         wasValid: bool, negative: bool, nonzero: bool)

  const START := State(Integer, false, false, false, false, false, false)

  predicate Nonzero(s: string) {
    exists i :: 0 <= i < |s| && s[i] != '0'
  }

  // The state after a beginning of a number
  function StateOf(p: Parts): State {
    var digits := p.whole != "" || p.fraction != "";
    var negative, nonzero := p.sign == "-", Nonzero(p.whole) || Nonzero(p.fraction);
    if p.e != "" then
      State(Exponent, p.expSign != "", p.exponent != "", false, digits, negative, nonzero)
    else if p.fraction != "" || (p.dot && p.whole == "") then
      State(Fraction, false, p.fraction != "", true, digits, negative, nonzero)
    else
      State(Integer, p.sign != "", p.whole != "", p.dot, digits, negative, nonzero)
  }

  datatype Kind = Sign(negative: bool) | Dot | Digit(nonzero: bool) | E | Other

  function KindOf(c: char): Kind {
    if c == '+' then Sign(false)
    else if c == '-' then Sign(true)
    else if c == '.' then Dot
    else if c == '0' then Digit(false)
    else if '1' <= c <= '9' then Digit(true)
    else if c == 'E' || c == 'e' then E
    else Other
  }

  // png_fp_set: everything but the sticky flags is cleared
  function Set(state: State, phase: Phase, sawDot: bool): State {
    state.(phase := phase, sawSign := false, sawDigit := false, sawDot := sawDot)
  }

  // The text that is read: as much as can begin a number
  ghost predicate Stops(text: string, size: nat, p: Parts, i: nat, q: Parts, j: nat)
    requires size <= |text|
  {
    && Begins(p) && Begins(q)
    && i <= j <= |text| && (j <= size || j == i)
    && Text(q) == Text(p) + text[i..j]
    && (j < size ==> !Viable(Text(q) + [text[j]]))
  }

  lemma NonzeroSnoc(s: string, c: char)
    ensures Nonzero(s + [c]) <==> Nonzero(s) || c != '0'
  {
    if Nonzero(s) {
      var i :| 0 <= i < |s| && s[i] != '0';
      assert (s + [c])[i] != '0';
    }
    assert (s + [c])[|s|] == c;
  }

  // The switch for each of the three phases; None leaves the loop.
  method AcceptInteger(state: State, kind: Kind, ghost p: Parts, ghost c: char) returns (next: Option<State>)
    requires Begins(p) && state == StateOf(p) && state.phase == Integer && kind == KindOf(c)
    ensures Extend(p, c) == None ==> next == None
    ensures Extend(p, c).Some? ==> next == Some(StateOf(Extend(p, c).value))
  {
    hide Nonzero, AllDigits;
    NonzeroSnoc(p.whole, c);
    NonzeroSnoc(p.fraction, c);
    NothingIsZero();
    var s := state;
    match kind {
      case Sign(negative) =>
        if s.sawSign || s.sawDigit || s.sawDot { return None; }
        s := s.(sawSign := true, negative := s.negative || negative);
      case Dot =>
        if s.sawDot { return None; }
        if s.sawDigit {
          s := s.(sawDot := true);
        } else {
          s := Set(s, Fraction, true);
        }
      case Digit(nonzero) =>
        if s.sawDot {
          s := Set(s, Fraction, true);
        }
        s := s.(sawDigit := true, wasValid := true, nonzero := s.nonzero || nonzero);
      case E =>
        if !s.sawDigit { return None; }
        s := Set(s, Exponent, false);
      case Other =>
        return None;
    }
    next := Some(s);
  }

  method AcceptFraction(state: State, kind: Kind, ghost p: Parts, ghost c: char) returns (next: Option<State>)
    requires Begins(p) && state == StateOf(p) && state.phase == Fraction && kind == KindOf(c)
    ensures Extend(p, c) == None ==> next == None
    ensures Extend(p, c).Some? ==> next == Some(StateOf(Extend(p, c).value))
  {
    hide Nonzero, AllDigits;
    NonzeroSnoc(p.fraction, c);
    var s := state;
    match kind {
      case Digit(nonzero) =>
        s := s.(sawDigit := true, wasValid := true, nonzero := s.nonzero || nonzero);
      case E =>
        if !s.sawDigit { return None; }
        s := Set(s, Exponent, false);
      case _ =>
        return None;
    }
    next := Some(s);
  }

  method AcceptExponent(state: State, kind: Kind, ghost p: Parts, ghost c: char) returns (next: Option<State>)
    requires Begins(p) && state == StateOf(p) && state.phase == Exponent && kind == KindOf(c)
    ensures Extend(p, c) == None ==> next == None
    ensures Extend(p, c).Some? ==> next == Some(StateOf(Extend(p, c).value))
  {
    hide Nonzero, AllDigits;
    var s := state;
    match kind {
      case Sign(_) =>
        if s.sawSign || s.sawDigit || s.sawDot { return None; }
        s := s.(sawSign := true);
      case Digit(_) =>
        s := s.(sawDigit := true, wasValid := true);
      case _ =>
        return None;
    }
    next := Some(s);
  }

  lemma NothingIsZero()
    ensures !Nonzero("")
  {
  }

  // One round of the loop
  method Accept(state: State, c: char, ghost p: Parts) returns (next: Option<State>)
    requires Begins(p) && state == StateOf(p)
    ensures Extend(p, c) == None ==> next == None
    ensures Extend(p, c).Some? ==> next == Some(StateOf(Extend(p, c).value))
  {
    hide StateOf, Extend, Begins, KindOf;
    var kind := KindOf(c);
    match state.phase {
      case Integer =>
        next := AcceptInteger(state, kind, p, c);
      case Fraction =>
        next := AcceptFraction(state, kind, p, c);
      case Exponent =>
        next := AcceptExponent(state, kind, p, c);
    }
  }

  // png_check_fp_number.  It reads on from a beginning p as far as a number can go on; the
  // state is that of what was read, and the result says whether that is a number.
  method CheckFpNumber(text: string, size: nat, statep: State, whereami: nat, ghost p: Parts)
    returns (ok: bool, state: State, i: nat)
    requires size <= |text| && whereami <= |text| && Begins(p) && statep == StateOf(p)
    ensures exists q :: Stops(text, size, p, whereami, q, i) && state == StateOf(q) && (ok <==> IsNumber(Text(q)))
  {
    hide StateOf, Text, Extend, IsNumber, Begins;
    state, i := statep, whereami;
    ghost var q := p;
    assert Text(p) + text[i..i] == Text(p);
    while i < size
      invariant whereami <= i <= |text| && (i <= size || i == whereami)
      invariant Begins(q) && state == StateOf(q)
      invariant Text(q) == Text(p) + text[whereami..i]
    {
      if Extend(q, text[i]).Some? {
        ExtendText(q, text[i]);
        ExtendBegins(q, text[i]);
      }
      var next := Accept(state, text[i], q);
      if next == None {
        StuckIsFinal(q, text[i]);
        break;
      }
      state, q := next.value, Extend(q, text[i]).value;
      assert text[whereami..i + 1] == text[whereami..i] + [text[i]];
      i := i + 1;
    }
    ok := state.sawDigit;
    DigitMeansNumber(q);
    assert Stops(text, size, p, whereami, q, i);
  }

  lemma DigitMeansNumber(q: Parts)
    requires Begins(q)
    ensures StateOf(q).sawDigit <==> IsNumber(Text(q))
  {
    assert StateOf(q).sawDigit <==> Ends(q);
    hide StateOf, Text;
    if IsNumber(Text(q)) {
      var p :| Ends(p) && Text(p) == Text(q);
      Unambiguous(p, q);
    }
  }

  // --------------------------------------------------------------------- whole texts

  // The text up to its terminator, or all of it
  function UpToNul(text: string): string {
    if text == "" || text[0] == NUL then "" else [text[0]] + UpToNul(text[1..])
  }

  lemma {:induction false} UpToNulIs(text: string, n: nat)
    requires n <= |text| && NulFree(text[..n]) && (n == |text| || text[n] == NUL)
    ensures UpToNul(text) == text[..n]
  {
    if n > 0 {
      assert text[1..][..n - 1] == text[..n][1..];
      assert text[..n] == [text[0]] + text[1..n];
      assert text[..n][0] == text[0];
      UpToNulIs(text[1..], n - 1);
    }
  }

  lemma {:induction false} UpToNulParts(text: string)
    ensures |UpToNul(text)| <= |text| && UpToNul(text) == text[..|UpToNul(text)|] && NulFree(UpToNul(text))
    ensures |UpToNul(text)| < |text| ==> text[|UpToNul(text)|] == NUL
  {
    if text != "" && text[0] != NUL {
      UpToNulParts(text[1..]);
    }
  }

  lemma DigitsNulFree(s: string)
    requires AllDigits(s)
    ensures NulFree(s)
  {
  }

  lemma NumberNulFree(p: Parts)
    requires Begins(p)
    ensures NulFree(Text(p))
  {
    DigitsNulFree(p.whole);
    DigitsNulFree(p.fraction);
    DigitsNulFree(p.exponent);
    assert NulFree(p.sign) && NulFree(Point(p.dot)) && NulFree(p.e) && NulFree(p.expSign);
    hide NulFree, AllDigits;
    NulFreeConcat(p.sign, p.whole);
    NulFreeConcat(p.sign + p.whole, Point(p.dot));
    NulFreeConcat(p.sign + p.whole + Point(p.dot), p.fraction);
    NulFreeConcat(p.e, p.expSign);
    NulFreeConcat(p.e + p.expSign, p.exponent);
    NulFreeConcat(Mantissa(p), Power(p));
  }

  // png_check_fp_string; None stands for the result 0
  method CheckFpString(text: string) returns (result: Option<State>)
    ensures result.Some? <==> IsNumber(UpToNul(text))
    ensures result.Some? ==> exists p :: Ends(p) && Text(p) == UpToNul(text) && result.value == StateOf(p)
  {
    EmptyText();
    hide StateOf, Text, Begins;
    var ok, state, i := CheckFpNumber(text, |text|, START, 0, NOTHING);
    ghost var q :| Stops(text, |text|, NOTHING, 0, q, i) && state == StateOf(q) && (ok <==> IsNumber(Text(q)));
    assert Text(q) == text[..i] by {
      assert "" + text[0..i] == text[..i];
    }
    NumberNulFree(q);
    if i == |text| || text[i] == NUL {
      UpToNulIs(text, i);
      result := if ok then Some(state) else None;
      if ok {
        ghost var p :| Ends(p) && Text(p) == Text(q);
        assert Begins(p);
        Unambiguous(p, q);
      }
    } else {
      result := None;
      NotWhole(text, i, q);
    }
  }

  // A text whose reading stops before its end is no number.
  lemma NotWhole(text: string, i: nat, q: Parts)
    requires Stops(text, |text|, NOTHING, 0, q, i) && i < |text| && text[i] != NUL
    ensures !IsNumber(UpToNul(text))
  {
    hide Text, Begins, IsNumber, Viable, UpToNul, NulFree;
    assert Text(q) == text[..i] by {
      EmptyText();
      assert "" + text[0..i] == text[..i];
    }
    NumberNulFree(q);
    UpToNulParts(text);
    var t := UpToNul(text);
    if |t| <= i {
      LongerThan(text, i, |t|);
    } else {
      assert t[..i + 1] == text[..i] + [text[i]];
      NumberViable(t, i + 1);
    }
  }

  lemma EmptyText()
    ensures Text(NOTHING) == "" && Begins(NOTHING) && StateOf(NOTHING) == START
  {
  }

  lemma LongerThan(text: string, i: nat, n: nat)
    requires n <= i < |text| && text[i] != NUL && NulFree(text[..i])
    ensures text[n] != NUL
  {
    assert n < i ==> text[..i][n] == text[n];
  }

  lemma NumberViable(t: string, k: nat)
    requires k <= |t|
    ensures IsNumber(t) ==> Viable(t[..k])
  {
    if IsNumber(t) {
      var p :| Ends(p) && Text(p) == t;
      assert Begins(p);
      ViablePrefix(t, k);
    }
  }

  // --------------------------------------------------------------------- in pieces

  // What is read is determined.
  lemma StopsOnce(text: string, size: nat, p: Parts, i: nat, q: Parts, j: nat, r: Parts, k: nat)
    requires size <= |text| && Stops(text, size, p, i, q, j) && Stops(text, size, p, i, r, k)
    ensures j == k && q == r
  {
    hide Text, Begins;
    Shortest(text, size, p, i, q, j, r, k);
    Shortest(text, size, p, i, r, k, q, j);
    Unambiguous(q, r);
  }

  lemma Shortest(text: string, size: nat, p: Parts, i: nat, q: Parts, j: nat, r: Parts, k: nat)
    requires size <= |text| && Stops(text, size, p, i, q, j) && Stops(text, size, p, i, r, k)
    ensures j >= k
  {
    hide Text, Begins;
    if j < k {
      var t := Text(r);
      var n := |Text(p)| + (j + 1 - i);
      assert t[..n] == Text(q) + [text[j]];
      ViablePrefix(t, n);
    }
  }

  // Reading a first piece, and then the rest from the saved state, is reading all at once.
  lemma Resume(text: string, first: nat, size: nat, p: Parts, i: nat,
               q: Parts, j: nat, r: Parts, k: nat, r': Parts, k': nat)
    requires i <= first <= size <= |text|
    requires Stops(text, first, p, i, q, j) && Stops(text, size, q, j, r, k)
    requires Stops(text, size, p, i, r', k')
    ensures k == k' && r == r'
  {
    hide Text, Begins, Viable;
    assert text[i..j] + text[j..k] == text[i..k];
    assert Text(p) + (text[i..j] + text[j..k]) == Text(p) + text[i..j] + text[j..k];
    StopsOnce(text, size, p, i, r, k, r', k');
  }
}
