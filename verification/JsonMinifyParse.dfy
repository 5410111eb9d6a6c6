// Minifying keeps the meaning of a text: what the parser reads from the minified text is what
// it reads from the text itself (3rdParty/libcjson/cJSON.c:92-107, 153-210, 259-298, 318-345,
// 404-437, 579-594).
module JsonMinifyParse {
  import opened CText
  import opened Json
  import opened JsonGrammar
  import opened JsonLiterals
  import M = JsonMinify

  // --------------------------------------------------------------------- what is left

  // The decoding pass of a literal, whose inside is read from p on, ends at the quote where the
  // minifier ends it, too.
  predicate Closes(s: string, p: nat)
    requires p <= |s|
  {
    Decode(s, p).Parsed? && Decode(s, p).end == M.LiteralEnd(s, p) - 1
  }

  // The literals that are met from p on and are closed end at the same quote for the parser.
  predicate Sound(s: string, p: nat)
    decreases |s| - p
  {
    if p >= |s| then true
    else if M.IsBlank(s[p]) then Sound(s, p + 1)
    else if s[p] == '/' && At(s, p + 1) == '/' then Sound(s, M.LineEnd(s, p))
    else if s[p] == '/' && At(s, p + 1) == '*' then Sound(s, M.CommentEnd(s, p) + 2)
    else if s[p] == '"' then
      var q := M.LiteralEnd(s, p + 1);
      q <= |s| ==> Closes(s, p + 1) && Sound(s, q)
    else Sound(s, p + 1)
  }

  // The minifier gets from q to p, and meets no slash outside the literals.
  predicate Slashless(s: string, q: nat, p: nat)
    decreases p - q
  {
    if q >= p || q >= |s| then q == p
    else if s[q] == '"' then Slashless(s, M.LiteralEnd(s, q + 1), p)
    else s[q] != '/' && Slashless(s, q + 1, p)
  }

  lemma {:induction false} SlashlessOn(s: string, q: nat, p: nat)
    requires Slashless(s, q, p) && p < |s| && s[p] != '/'
    ensures Slashless(s, q, if s[p] == '"' then M.LiteralEnd(s, p + 1) else p + 1)
    decreases p - q
  {
    if q < p {
      SlashlessOn(s, if s[q] == '"' then M.LiteralEnd(s, q + 1) else q + 1, p);
    }
  }

  // From k on, m is what is left of s from p on.  What has been left behind had no comments.
  predicate Rest(s: string, p: nat, m: string, k: nat) {
    p <= |s| && k <= |m| && M.Minify(s, p) == M.Some(m[k..]) && Sound(s, p) && Slashless(s, 0, p)
  }

  lemma BlankPassed(s: string, p: nat, m: string, k: nat)
    requires Rest(s, p, m, k) && p < |s| && M.IsBlank(s[p])
    ensures Rest(s, p + 1, m, k)
  {
    SlashlessOn(s, 0, p);
  }

  // A character that is kept
  lemma OneKept(s: string, p: nat, m: string, k: nat)
    requires Rest(s, p, m, k) && p < |s| && M.IsPlain(s[p])
    ensures k < |m| && m[k] == s[p] && Rest(s, p + 1, m, k + 1)
  {
    var rest := M.Minify(s, p + 1);
    assert M.Minify(s, p) == M.Some(s[p..p + 1] + rest.text);
    assert m[k..] == s[p..p + 1] + rest.text;
    assert |m[k..]| > 0;
    assert m[k] == m[k..][0] == s[p];
    assert m[k + 1..] == m[k..][1..] == rest.text;
    SlashlessOn(s, 0, p);
  }

  lemma {:induction false} AllKept(s: string, p: nat, m: string, k: nat, n: nat)
    requires Rest(s, p, m, k) && p + n <= |s| && forall i :: p <= i < p + n ==> M.IsPlain(s[i])
    ensures k + n <= |m| && Rest(s, p + n, m, k + n)
    ensures forall i :: p <= i < p + n ==> m[i + k - p] == s[i]
    decreases n
  {
    hide Rest;
    if n > 0 {
      OneKept(s, p, m, k);
      AllKept(s, p + 1, m, k + 1, n - 1);
    } else {
      RestFits(s, p, m, k);
    }
  }

  lemma RestFits(s: string, p: nat, m: string, k: nat)
    requires Rest(s, p, m, k)
    ensures p <= |s| && k <= |m|
    ensures p == |s| ==> k == |m|
    ensures p < |s| && (M.IsPlain(s[p]) || s[p] == '"') ==> k < |m| && m[k] == s[p] && At(m, k) == At(s, p) == s[p]
  {
    if p < |s| && M.IsPlain(s[p]) {
      OneKept(s, p, m, k);
    } else if p < |s| && s[p] == '"' {
      var q := M.LiteralEnd(s, p + 1);
      assert m[k..] == s[p..q] + M.Minify(s, q).text;
      assert m[k..][0] == s[p];
    } else if p == |s| {
      assert |m[k..]| == 0;
    }
  }

  // A literal is kept as a whole.
  lemma LiteralKept(s: string, p: nat, m: string, k: nat)
    requires Rest(s, p, m, k) && p < |s| && s[p] == '"'
    ensures
      var q := M.LiteralEnd(s, p + 1);
      && p + 2 <= q <= |s| && k + (q - p) <= |m| && m[k..k + (q - p)] == s[p..q]
      && Closes(s, p + 1) && s[q - 1] == '"' && Rest(s, q, m, k + (q - p))
  {
    var q := M.LiteralEnd(s, p + 1);
    EndsWithQuote(s, p + 1);
    var rest := M.Minify(s, q);
    assert m[k..] == s[p..q] + rest.text;
    assert m[k..][..q - p] == s[p..q] && m[k..][q - p..] == rest.text;
    assert m[k + (q - p)..] == m[k..][q - p..];
    SlashlessOn(s, 0, p);
  }

  lemma {:induction false} EndsWithQuote(s: string, p: nat)
    requires p <= |s| && M.LiteralEnd(s, p) <= |s|
    ensures s[M.LiteralEnd(s, p) - 1] == '"'
    decreases |s| - p
  {
    if p < |s| && s[p] != '"' {
      if s[p] == '\\' {
        if p + 1 < |s| {
          EndsWithQuote(s, p + 2);
        }
      } else {
        EndsWithQuote(s, p + 1);
      }
    }
  }

  // No comment begins here.
  predicate Token(s: string, p: nat)
    requires p <= |s|
  {
    At(s, p) != '/'
  }

  // Whitespace is skipped in both texts.
  lemma {:induction false} SkipKept(s: string, p: nat, m: string, k: nat)
    requires Rest(s, p, m, k) && Token(s, Skip(s, p))
    ensures Rest(s, Skip(s, p), m, Skip(m, k))
    decreases |s| - p
  {
    RestFits(s, p, m, k);
    if p < |s| && s[p] <= ' ' {
      if M.IsBlank(s[p]) {
        BlankPassed(s, p, m, k);
        SkipKept(s, p + 1, m, k);
      } else {
        OneKept(s, p, m, k);
        SkipKept(s, p + 1, m, k + 1);
      }
    }
  }

  // --------------------------------------------------------------------- numbers

  // A character that no number goes on with
  predicate Inert(c: char) {
    !IsDigit(c) && c != '.' && c != 'e' && c != 'E' && c != '+' && c != '-'
  }

  // Both texts have the same n characters, and no number goes on behind them.
  predicate Agree(s: string, p: nat, m: string, k: nat, n: nat) {
    && p + n <= |s| && k + n <= |m| && Inert(At(s, p + n)) && Inert(At(m, k + n))
    && forall i :: p <= i < p + n ==> m[i + k - p] == s[i]
  }

  lemma {:induction false} DigitsEndLocal(s: string, p: nat, m: string, k: nat, n: nat, a: nat)
    requires Agree(s, p, m, k, n) && a <= n
    ensures DigitsEnd(s, p + a) - p == DigitsEnd(m, k + a) - k <= n
    decreases n - a
  {
    if a < n {
      if IsDigit(s[p + a]) {
        DigitsEndLocal(s, p, m, k, n, a + 1);
      }
    }
  }

  lemma {:induction false} DigitsLocal(x: int, s: string, p: nat, m: string, k: nat, n: nat)
    requires p + n <= |s| && k + n <= |m| && forall i :: p <= i < p + n ==> m[i + k - p] == s[i]
    ensures Digits(x, s, p, p + n) == Digits(x, m, k, k + n)
    decreases n
  {
    if n > 0 {
      DigitsLocal(10 * x + (s[p] as int - '0' as int), s, p + 1, m, k + 1, n - 1);
    }
  }

  lemma AtLocal(s: string, p: nat, m: string, k: nat, n: nat, a: nat)
    requires Agree(s, p, m, k, n) && a <= n
    ensures a < n ==> At(m, k + a) == At(s, p + a)
    ensures a == n ==> Inert(At(s, p + a)) && Inert(At(m, k + a))
  {
    assert a < n ==> m[p + a + k - p] == s[p + a];
  }

  // The sub-range of agreeing texts from a to b
  lemma DigitsAgree(x: int, s: string, p: nat, m: string, k: nat, n: nat, a: nat, b: nat)
    requires Agree(s, p, m, k, n) && a <= b <= n
    ensures Digits(x, s, p + a, p + b) == Digits(x, m, k + a, k + b)
  {
    DigitsLocal(x, s, p + a, m, k + a, b - a);
  }

  lemma IntegerLocal(s: string, p: nat, m: string, k: nat, n: nat, a: nat)
    requires Agree(s, p, m, k, n) && a <= n
    ensures ZeroEnd(s, p + a) - p == ZeroEnd(m, k + a) - k <= IntegerEnd(s, p + a) - p
    ensures IntegerEnd(s, p + a) - p == IntegerEnd(m, k + a) - k <= n
  {
    AtLocal(s, p, m, k, n, a);
    var z := ZeroEnd(s, p + a) - p;
    AtLocal(s, p, m, k, n, z);
    DigitsEndLocal(s, p, m, k, n, z);
    hide Agree, At;
  }

  lemma FractionLocal(s: string, p: nat, m: string, k: nat, n: nat, a: nat)
    requires Agree(s, p, m, k, n) && a <= n
    ensures FractionEnd(s, p + a) - p == FractionEnd(m, k + a) - k <= n
  {
    AtLocal(s, p, m, k, n, a);
    if a < n {
      AtLocal(s, p, m, k, n, a + 1);
      DigitsEndLocal(s, p, m, k, n, a + 1);
    }
    hide Agree, At;
  }

  function Signed(negative: bool, x: int): int {
    if negative then -x else x
  }

  // The mantissa by its parts
  lemma MantissaIs(s: string, p: nat, p0: nat, p1: nat, p2: nat, whole: int, all: int)
    requires p <= |s| && p0 == (if At(s, p) == '-' then p + 1 else p) && p0 <= |s|
    requires p1 == IntegerEnd(s, p0) && p2 == FractionEnd(s, p1)
    requires ZeroEnd(s, p0) <= p1 && whole == Digits(0, s, ZeroEnd(s, p0), p1)
    requires p2 != p1 ==> p1 < p2 && all == Digits(whole, s, p1 + 1, p2)
    ensures MantissaAt(s, p) ==
              if p2 == p1 then Mantissa(Signed(At(s, p) == '-', whole), 0, p1)
              else Mantissa(Signed(At(s, p) == '-', all), -(p2 - p1 - 1), p2)
  {
    hide Digits, IntegerEnd, ZeroEnd, FractionEnd;
    if At(s, p) == '-' {
    } else {
    }
  }

  lemma MantissaLocal(s: string, p: nat, m: string, k: nat, n: nat)
    requires Agree(s, p, m, k, n)
    ensures MantissaAt(s, p).end - p == MantissaAt(m, k).end - k <= n
    ensures MantissaAt(m, k).n == MantissaAt(s, p).n && MantissaAt(m, k).scale == MantissaAt(s, p).scale
  {
    hide At, Digits, IntegerEnd, ZeroEnd, FractionEnd, DigitsEnd, MantissaAt, Signed;
    AtLocal(s, p, m, k, n, 0);
    assert p + 0 == p && k + 0 == k && p <= |s| && k <= |m|;
    assert At(s, p) == '-' <==> At(m, k) == '-';
    hide Agree, Inert;
    var a := if At(s, p) == '-' then 1 else 0;
    IntegerLocal(s, p, m, k, n, a);
    var z, b := ZeroEnd(s, p + a) - p, IntegerEnd(s, p + a) - p;
    FractionLocal(s, p, m, k, n, b);
    DigitsAgree(0, s, p, m, k, n, z, b);
    var c := FractionEnd(s, p + b) - p;
    var whole := Digits(0, s, p + z, p + b);
    var all := whole;
    if c != b {
      DigitsAgree(whole, s, p, m, k, n, b + 1, c);
      all := Digits(whole, s, p + b + 1, p + c);
    }
    MantissaIs(s, p, p + a, p + b, p + c, whole, all);
    MantissaIs(m, k, k + a, k + b, k + c, whole, all);
  }

  lemma ExponentLocal(s: string, p: nat, m: string, k: nat, n: nat, a: nat)
    requires Agree(s, p, m, k, n) && a <= n
    ensures ExponentAt(s, p + a).1 - p == ExponentAt(m, k + a).1 - k <= n
    ensures ExponentAt(m, k + a).0 == ExponentAt(s, p + a).0
  {
    AtLocal(s, p, m, k, n, a);
    if a < n && HasExponent(s, p + a) {
      AtLocal(s, p, m, k, n, a + 1);
      var b := ExponentStart(s, p + a) - p;
      DigitsEndLocal(s, p, m, k, n, b);
      DigitsAgree(0, s, p, m, k, n, b, DigitsEnd(s, p + b) - p);
    }
    hide Agree, At, Digits, DigitsEnd;
  }

  // A number is read the same where its characters are the same.
  lemma NumberLocal(s: string, p: nat, m: string, k: nat, n: nat)
    requires Agree(s, p, m, k, n)
    ensures ParseNumber(s, p).end - p <= n
    ensures ParseNumber(m, k) == Parsed(ParseNumber(s, p).value, k + (ParseNumber(s, p).end - p))
  {
    hide Agree, MantissaAt, ExponentAt, Scaled;
    MantissaLocal(s, p, m, k, n);
    var a := MantissaAt(s, p).end - p;
    ExponentLocal(s, p, m, k, n, a);
    assert MantissaAt(s, p).end == p + a && MantissaAt(m, k).end == k + a;
  }

  lemma NumberPlain(s: string, p: nat)
    requires p <= |s|
    ensures forall i :: p <= i < ParseNumber(s, p).end ==> M.IsPlain(s[i])
  {
    var p0 := if At(s, p) == '-' then p + 1 else p;
    var p1 := IntegerEnd(s, p0);
    var p2 := FractionEnd(s, p1);
    assert MantissaAt(s, p).end == p2;
    assert forall i :: p <= i < p1 ==> IsDigit(s[i]) || s[i] == '-';
    assert forall i :: p1 <= i < p2 ==> IsDigit(s[i]) || s[i] == '.';
    ExponentPlain(s, p2);
    hide MantissaAt, ExponentAt, IntegerEnd, FractionEnd, Scaled;
  }

  lemma ExponentPlain(s: string, p: nat)
    requires p <= |s|
    ensures forall i :: p <= i < ExponentAt(s, p).1 ==> M.IsPlain(s[i])
  {
    if HasExponent(s, p) {
      var q := ExponentStart(s, p);
      assert forall i :: p <= i < q ==> M.IsPlain(s[i]);
      assert forall i :: q <= i < DigitsEnd(s, q) ==> IsDigit(s[i]);
    }
  }

  // --------------------------------------------------------------------- what follows a value

  // Only the end, a comma or a closing bracket comes behind a value.
  predicate Follows(s: string, e: nat)
    requires e <= |s|
  {
    Skip(s, e) == |s| || s[Skip(s, e)] == ',' || s[Skip(s, e)] == ']' || s[Skip(s, e)] == '}'
  }

  lemma {:induction false} NextInert(s: string, e: nat, m: string, k: nat)
    requires Rest(s, e, m, k) && Follows(s, e)
    ensures Inert(At(s, e)) && Inert(At(m, k))
    decreases |s| - e
  {
    RestFits(s, e, m, k);
    if e < |s| && s[e] <= ' ' {
      if M.IsBlank(s[e]) {
        BlankPassed(s, e, m, k);
        NextInert(s, e + 1, m, k);
      } else {
        OneKept(s, e, m, k);
      }
    }
  }

  lemma NumberKept(s: string, p: nat, m: string, k: nat)
    requires Rest(s, p, m, k) && Follows(s, ParseNumber(s, p).end)
    ensures
      var r := ParseNumber(s, p);
      && k + (r.end - p) <= |m| && ParseNumber(m, k) == Parsed(r.value, k + (r.end - p))
      && Rest(s, r.end, m, k + (r.end - p))
  {
    hide ParseNumber, Rest, M.IsPlain, Follows, Inert;
    RestFits(s, p, m, k);
    var n := ParseNumber(s, p).end - p;
    NumberPlain(s, p);
    AllKept(s, p, m, k, n);
    NextInert(s, p + n, m, k + n);
    NumberLocal(s, p, m, k, n);
  }

  lemma WordKept(s: string, p: nat, m: string, k: nat, w: string)
    requires Rest(s, p, m, k) && Occurs(s, p, w) && forall i :: 0 <= i < |w| ==> M.IsPlain(w[i])
    ensures Occurs(m, k, w) && Rest(s, p + |w|, m, k + |w|)
  {
    forall i | p <= i < p + |w| ensures s[i] == w[i - p] {
      assert s[p + (i - p)] == w[i - p];
    }
    hide Rest;
    AllKept(s, p, m, k, |w|);
    forall i | 0 <= i < |w| ensures m[k + i] == w[i] {
      assert m[(p + i) + k - p] == s[p + i];
    }
  }

  // The first pass ends where the minifier ends the literal.
  lemma {:induction false} MeasureEnds(s: string, p: nat)
    requires p <= |s| && M.LiteralEnd(s, p) <= |s|
    ensures Measure(s, p).Parsed? && Measure(s, p).end == M.LiteralEnd(s, p) - 1
    decreases |s| - p
  {
    if p < |s| && s[p] != '"' {
      MeasureEnds(s, if s[p] == '\\' then p + 2 else p + 1);
    }
  }

  // Both texts have the same n + 1 characters, and the last one is a quote.
  predicate SameLiteral(s: string, p: nat, m: string, k: nat, n: nat) {
    && p + n < |s| && k + n < |m| && s[p + n] == '"'
    && forall i :: p <= i <= p + n ==> m[i + k - p] == s[i]
  }

  lemma LiteralWithin(s: string, p: nat, m: string, k: nat, n: nat)
    requires SameLiteral(s, p, m, k, n)
    ensures p + n < |s| && k + n < |m| && s[p + n] == '"'
  {
  }

  lemma CharLocal(s: string, p: nat, m: string, k: nat, n: nat, a: nat)
    requires SameLiteral(s, p, m, k, n)
    ensures p + n < |s| && k + n < |m|
    ensures a <= n ==> m[k + a] == s[p + a]
  {
    assert a <= n ==> m[(p + a) + k - p] == s[p + a];
  }

  lemma {:induction false} MeasureLocal(s: string, p: nat, m: string, k: nat, n: nat, a: nat)
    requires SameLiteral(s, p, m, k, n) && a <= n
    requires Measure(s, p + a).Parsed? && Measure(s, p + a).end == p + n
    ensures Measure(m, k + a) == Parsed(Measure(s, p + a).value, k + n)
    decreases n - a
  {
    CharLocal(s, p, m, k, n, a);
    if s[p + a] != '"' {
      MeasureLocal(s, p, m, k, n, a + if s[p + a] == '\\' then 2 else 1);
    }
  }

  lemma Hex4Local(s: string, p: nat, m: string, k: nat, n: nat, a: nat)
    requires SameLiteral(s, p, m, k, n) && a + 4 <= n
    ensures Hex4(m, k + a) == Hex4(s, p + a)
  {
    CharLocal(s, p, m, k, n, a);
    CharLocal(s, p, m, k, n, a + 1);
    CharLocal(s, p, m, k, n, a + 2);
    CharLocal(s, p, m, k, n, a + 3);
  }

  // An escape that ends inside the literal
  lemma EscapeLocal(s: string, p: nat, m: string, k: nat, n: nat, a: nat)
    requires SameLiteral(s, p, m, k, n) && a <= n && DecodeEscape(s, p + a).1 <= p + n
    ensures DecodeEscape(m, k + a) == (DecodeEscape(s, p + a).0, DecodeEscape(s, p + a).1 - p + k)
  {
    hide Hex4, Utf8, Pair, SameLiteral;
    LiteralWithin(s, p, m, k, n);
    CharLocal(s, p, m, k, n, a);
    if s[p + a] == 'u' {
      Hex4Local(s, p, m, k, n, a + 1);
      CharLocal(s, p, m, k, n, a + 5);
      CharLocal(s, p, m, k, n, a + 6);
      if a + 11 <= n {
        Hex4Local(s, p, m, k, n, a + 7);
      }
    }
  }

  lemma {:induction false} DecodeLocal(s: string, p: nat, m: string, k: nat, n: nat, a: nat)
    requires SameLiteral(s, p, m, k, n) && a <= n
    requires Decode(s, p + a).Parsed? && Decode(s, p + a).end == p + n
    ensures Decode(m, k + a) == Parsed(Decode(s, p + a).value, k + n)
    decreases n - a
  {
    hide Decode, DecodeEscape, SameLiteral;
    LiteralWithin(s, p, m, k, n);
    CharLocal(s, p, m, k, n, a);
    if s[p + a] == '"' {
      DecodeNothing(s, p + a);
      DecodeNothing(m, k + a);
    } else {
      DecodeUnfold(s, p + a);
      var (chars, next) := if s[p + a] == '\\' then DecodeEscape(s, p + a + 1) else ([s[p + a]], p + a + 1);
      if s[p + a] == '\\' {
        EscapeLocal(s, p, m, k, n, a + 1);
      }
      DecodeLocal(s, p, m, k, n, next - p);
      DecodeStep(m, k + a, chars, next - p + k);
    }
  }

  // A literal is read the same.
  lemma StringKept(s: string, p: nat, m: string, k: nat)
    requires Rest(s, p, m, k) && At(s, p) == '"' && ParseString(s, p).Parsed?
    ensures
      var r := ParseString(s, p);
      && k + (r.end - p) <= |m| && ParseString(m, k) == Parsed(r.value, k + (r.end - p))
      && Rest(s, r.end, m, k + (r.end - p))
  {
    hide Rest, Decode, Measure, M.LiteralEnd;
    RestFits(s, p, m, k);
    LiteralKept(s, p, m, k);
    var n := M.LiteralEnd(s, p + 1) - 1 - (p + 1);
    SliceSame(s, p, m, k, n);
    MeasureEnds(s, p + 1);
    MeasureLocal(s, p + 1, m, k + 1, n, 0);
    DecodeLocal(s, p + 1, m, k + 1, n, 0);
    hide SameLiteral;
  }

  lemma SliceSame(s: string, p: nat, m: string, k: nat, n: nat)
    requires p + n + 2 <= |s| && k + n + 2 <= |m| && m[k..k + n + 2] == s[p..p + n + 2] && s[p + n + 1] == '"'
    ensures m[k] == s[p] && SameLiteral(s, p + 1, m, k + 1, n)
  {
    var x := s[p..p + n + 2];
    assert m[k] == x[0] && s[p] == x[0];
    forall i | p + 1 <= i <= p + 1 + n ensures m[i + (k + 1) - (p + 1)] == s[i] {
      assert m[k..k + n + 2][i - p] == x[i - p];
    }
  }

  // Complete escapes are enough for both to end at the same quote.
  lemma CompleteCloses(s: string, p: nat)
    requires p < |s| && s[p] == '"' && M.LiteralEnd(s, p + 1) <= |s|
    requires Complete(s[p + 1..M.LiteralEnd(s, p + 1) - 1])
    ensures Closes(s, p + 1)
  {
    var q := M.LiteralEnd(s, p + 1);
    EndsWithQuote(s, p + 1);
    hide Decode, Measure, ParseString, Complete, Occurs, Source, Meaning, M.LiteralEnd;
    var us := Units(s[p + 1..q - 1]);
    QuotedSlice(s, p, q, Source(us));
    OccursSlice(s, p, q, "\"" + (Source(us) + "\""));
    OccursConcat(s, p, "\"", Source(us) + "\"");
    DecodeAgrees(us, s, p + 1);
  }

  lemma QuotedSlice(s: string, p: nat, q: nat, b: string)
    requires p + 2 <= q <= |s| && s[p] == '"' && s[q - 1] == '"' && s[p + 1..q - 1] == b
    ensures s[p..q] == "\"" + (b + "\"") && |b| == q - p - 2
  {
  }

  lemma OccursSlice(s: string, p: nat, q: nat, t: string)
    requires p <= q <= |s| && s[p..q] == t
    ensures Occurs(s, p, t)
  {
    forall i | 0 <= i < |t| ensures s[p + i] == t[i] {
      assert s[p..q][i] == s[p + i];
    }
  }

  // --------------------------------------------------------------------- values

  lemma Words(s: string, p: nat)
    requires p <= |s|
    ensures Occurs(s, p, "null") ==> At(s, p) == 'n'
    ensures Occurs(s, p, "false") ==> At(s, p) == 'f'
    ensures Occurs(s, p, "true") ==> At(s, p) == 't'
  {
    if Occurs(s, p, "null") {
      OccursFirst(s, p, "null");
    }
    if Occurs(s, p, "false") {
      OccursFirst(s, p, "false");
    }
    if Occurs(s, p, "true") {
      OccursFirst(s, p, "true");
    }
  }

  // The first character tells what kind of value it is.
  lemma FirstTells(s: string, p: nat)
    requires p <= |s| && ParseValue(s, p).Parsed?
    ensures p < |s| && (M.IsPlain(s[p]) || s[p] == '"') && s[p] > ' '
    ensures s[p] != ']' && s[p] != '}' && s[p] != '/' && At(s, p) == s[p]
    ensures s[p] == 'n' <==> Occurs(s, p, "null")
    ensures s[p] == 'f' <==> Occurs(s, p, "false")
    ensures s[p] == 't' <==> Occurs(s, p, "true")
  {
    Words(s, p);
    hide Occurs, ParseArray, ParseObject, ParseNumber, ParseString;
  }

  // Behind the blanks a value begins in both texts.
  lemma SkipToValue(s: string, p: nat, m: string, k: nat)
    requires Rest(s, p, m, k) && ParseValue(s, Skip(s, p)).Parsed?
    ensures Rest(s, Skip(s, p), m, Skip(m, k)) && At(m, Skip(m, k)) == At(s, Skip(s, p))
  {
    FirstTells(s, Skip(s, p));
    SkipKept(s, p, m, k);
    RestFits(s, Skip(s, p), m, Skip(m, k));
    hide ParseValue, Skip, Rest;
  }

  // Behind the blanks comes the same mark in both texts, and then what is left.
  lemma SkipToMark(s: string, p: nat, m: string, k: nat)
    requires Rest(s, p, m, k)
    requires At(s, Skip(s, p)) in {',', ']', '}', ':'}
    ensures
      var q, j := Skip(s, p), Skip(m, k);
      q < |s| && j < |m| && s[q] == m[j] && Rest(s, q + 1, m, j + 1)
  {
    SkipKept(s, p, m, k);
    OneKept(s, Skip(s, p), m, Skip(m, k));
    hide Rest, Skip;
  }

  lemma {:induction false} ValueKept(s: string, p: nat, m: string, k: nat) returns (j: nat)
    requires Rest(s, p, m, k) && ParseValue(s, p).Parsed? && Follows(s, ParseValue(s, p).end)
    ensures ParseValue(m, k) == Parsed(ParseValue(s, p).value, j) && Rest(s, ParseValue(s, p).end, m, j)
    decreases |s| - p, 2
  {
    hide *;
    FirstTells(s, p);
    RestFits(s, p, m, k);
    if s[p] == '"' {
      ValueIs(s, p);
      StringKept(s, p, m, k);
      ValueIs(m, k);
      j := k + (ParseString(s, p).end - p);
    } else if s[p] == '[' {
      ValueIs(s, p);
      j := ArrayKept(s, p, m, k);
      ValueIs(m, k);
    } else if s[p] == '{' {
      ValueIs(s, p);
      j := ObjectKept(s, p, m, k);
      ValueIs(m, k);
    } else {
      j := SimpleKept(s, p, m, k);
    }
  }

  // What the first character makes of a value
  lemma ValueIs(s: string, p: nat)
    requires p < |s|
    ensures At(s, p) == s[p]
    ensures s[p] == '"' ==> (ParseValue(s, p).Parsed? <==> ParseString(s, p).Parsed?)
    ensures s[p] == '"' && ParseString(s, p).Parsed? ==>
      ParseValue(s, p) == Parsed(String(ParseString(s, p).value), ParseString(s, p).end)
    ensures s[p] == '[' ==> ParseValue(s, p) == ParseArray(s, p)
    ensures s[p] == '{' ==> ParseValue(s, p) == ParseObject(s, p)
    ensures s[p] == '-' || IsDigit(s[p]) ==> ParseValue(s, p) == ParseNumber(s, p)
    ensures Occurs(s, p, "null") ==> ParseValue(s, p) == Parsed(Null, p + 4)
    ensures Occurs(s, p, "false") ==> ParseValue(s, p) == Parsed(False, p + 5)
    ensures Occurs(s, p, "true") ==> ParseValue(s, p) == Parsed(True, p + 4)
  {
    hide ParseArray, ParseObject, ParseNumber, ParseString, Occurs;
    Words(s, p);
  }

  lemma SimpleKept(s: string, p: nat, m: string, k: nat) returns (j: nat)
    requires Rest(s, p, m, k) && ParseValue(s, p).Parsed? && Follows(s, ParseValue(s, p).end)
    requires p < |s| && s[p] != '"' && s[p] != '[' && s[p] != '{'
    ensures ParseValue(m, k) == Parsed(ParseValue(s, p).value, j) && Rest(s, ParseValue(s, p).end, m, j)
  {
    hide Rest, Follows, Occurs, ParseValue, ParseNumber;
    FirstTells(s, p);
    RestFits(s, p, m, k);
    ValueIs(s, p);
    ValueIs(m, k);
    if s[p] == 'n' {
      WordKept(s, p, m, k, "null");
      j := k + 4;
    } else if s[p] == 'f' {
      WordKept(s, p, m, k, "false");
      j := k + 5;
    } else if s[p] == 't' {
      WordKept(s, p, m, k, "true");
      j := k + 4;
    } else {
      FirstIsNumber(s, p);
      NumberKept(s, p, m, k);
      j := k + (ParseNumber(s, p).end - p);
    }
  }

  lemma FirstIsNumber(s: string, p: nat)
    requires p < |s| && ParseValue(s, p).Parsed?
    requires s[p] != '"' && s[p] != '[' && s[p] != '{' && s[p] != 'n' && s[p] != 'f' && s[p] != 't'
    ensures s[p] == '-' || IsDigit(s[p])
  {
    hide Occurs;
    Words(s, p);
  }

  // An array whose first item begins at q
  lemma ArrayParts(s: string, p: nat)
    requires p < |s| && s[p] == '['
    ensures
      var q := Skip(s, p + 1);
      && (At(s, q) == ']' ==> ParseArray(s, p) == Parsed(Array([]), q + 1))
      && (At(s, q) != ']' ==> (ParseArray(s, p).Parsed? <==> ParseItems(s, q).Parsed?))
      && (At(s, q) != ']' && ParseItems(s, q).Parsed? ==>
            ParseArray(s, p) == Parsed(Array(ParseItems(s, q).value), ParseItems(s, q).end))
  {
    hide Skip, ParseItems;
  }

  lemma ArrayBegins(s: string, p: nat)
    requires p <= |s| && ParseArray(s, p).Parsed?
    ensures p < |s| && s[p] == '['
  {
    hide ParseItems, Skip;
  }

  lemma {:induction false} ArrayKept(s: string, p: nat, m: string, k: nat) returns (j: nat)
    requires Rest(s, p, m, k) && ParseArray(s, p).Parsed?
    ensures ParseArray(m, k) == Parsed(ParseArray(s, p).value, j) && Rest(s, ParseArray(s, p).end, m, j)
    decreases |s| - p, 1
  {
    hide Rest, Skip, ParseArray;
    ArrayBegins(s, p);
    RestFits(s, p, m, k);
    OneKept(s, p, m, k);
    ArrayParts(s, p);
    ArrayParts(m, k);
    var q := Skip(s, p + 1);
    if At(s, q) == ']' {
      SkipToMark(s, p + 1, m, k + 1);
      j := Skip(m, k + 1) + 1;
    } else {
      ItemsBegin(s, q);
      FirstTells(s, q);
      SkipToValue(s, p + 1, m, k + 1);
      j := ItemsKept(s, q, m, Skip(m, k + 1));
    }
  }

  lemma ItemsBegin(s: string, q: nat)
    requires q <= |s| && ParseItems(s, q).Parsed?
    ensures ParseValue(s, q).Parsed?
  {
    hide ParseValue;
  }

  // The items behind the first one
  lemma ItemsParts(s: string, p: nat)
    requires p <= |s| && ParseValue(s, p).Parsed?
    ensures
      var v, e := ParseValue(s, p).value, ParseValue(s, p).end;
      var q := Skip(s, e);
      && (At(s, q) == ',' ==> (ParseItems(s, p).Parsed? <==> ParseItems(s, Skip(s, q + 1)).Parsed?))
      && (At(s, q) == ',' && ParseItems(s, p).Parsed? ==>
            ParseItems(s, p) == Parsed([v] + ParseItems(s, Skip(s, q + 1)).value, ParseItems(s, Skip(s, q + 1)).end))
      && (At(s, q) == ']' ==> ParseItems(s, p) == Parsed([v], q + 1))
      && (At(s, q) != ',' && At(s, q) != ']' ==> !ParseItems(s, p).Parsed?)
  {
    hide ParseValue, Skip;
  }

  // The items behind equal first ones make equal items.
  lemma ItemsJoin(s: string, p: nat, m: string, k: nat, q: nat, l: nat, j: nat)
    requires p <= |s| && ParseValue(s, p).Parsed? && q == Skip(s, ParseValue(s, p).end)
    requires k <= |m| && ParseValue(m, k).Parsed? && l == Skip(m, ParseValue(m, k).end)
    requires ParseValue(m, k).value == ParseValue(s, p).value && q < |s| && l < |m| && m[l] == s[q]
    requires s[q] == ',' ==>
      && ParseItems(s, Skip(s, q + 1)).Parsed?
      && ParseItems(m, Skip(m, l + 1)) == Parsed(ParseItems(s, Skip(s, q + 1)).value, j)
    requires s[q] != ',' ==> s[q] == ']' && j == l + 1
    ensures ParseItems(s, p).Parsed? && ParseItems(m, k) == Parsed(ParseItems(s, p).value, j)
    ensures ParseItems(s, p).end == if s[q] == ',' then ParseItems(s, Skip(s, q + 1)).end else q + 1
  {
    hide ParseItems, ParseValue, Skip;
    ItemsParts(s, p);
    ItemsParts(m, k);
  }

  // There is a mark behind a first item.
  lemma ItemsMark(s: string, p: nat)
    requires p <= |s| && ParseItems(s, p).Parsed?
    ensures ParseValue(s, p).Parsed? && Follows(s, ParseValue(s, p).end)
    ensures
      var q := Skip(s, ParseValue(s, p).end);
      q < |s| && At(s, q) == s[q] && (s[q] == ',' || s[q] == ']') && (s[q] == ',' ==> ParseItems(s, Skip(s, q + 1)).Parsed?)
  {
    hide ParseValue, Skip;
  }

  lemma {:induction false} ItemsKept(s: string, p: nat, m: string, k: nat) returns (j: nat)
    requires Rest(s, p, m, k) && ParseItems(s, p).Parsed?
    ensures ParseItems(m, k) == Parsed(ParseItems(s, p).value, j) && Rest(s, ParseItems(s, p).end, m, j)
    decreases |s| - p, 3
  {
    hide *;
    RestFits(s, p, m, k);
    ItemsMark(s, p);
    var e := ParseValue(s, p).end;
    var q := Skip(s, e);
    var i := ValueKept(s, p, m, k);
    SkipToMark(s, e, m, i);
    var l := Skip(m, i);
    if s[q] == ',' {
      ItemsBegin(s, Skip(s, q + 1));
      SkipToValue(s, q + 1, m, l + 1);
      j := ItemsKept(s, Skip(s, q + 1), m, Skip(m, l + 1));
    } else {
      j := l + 1;
    }
    ItemsJoin(s, p, m, k, q, l, j);
  }

  lemma ObjectBegins(s: string, p: nat)
    requires p <= |s| && ParseObject(s, p).Parsed?
    ensures p < |s| && s[p] == '{'
  {
    hide ParseMembers, Skip;
  }

  // An object whose first member begins at q
  lemma ObjectParts(s: string, p: nat)
    requires p < |s| && s[p] == '{'
    ensures
      var q := Skip(s, p + 1);
      && (At(s, q) == '}' ==> ParseObject(s, p) == Parsed(Object([]), q + 1))
      && (At(s, q) != '}' ==> (ParseObject(s, p).Parsed? <==> ParseMembers(s, q).Parsed?))
      && (At(s, q) != '}' && ParseMembers(s, q).Parsed? ==>
            ParseObject(s, p) == Parsed(Object(ParseMembers(s, q).value), ParseMembers(s, q).end))
  {
    hide Skip, ParseMembers;
  }

  lemma {:induction false} ObjectKept(s: string, p: nat, m: string, k: nat) returns (j: nat)
    requires Rest(s, p, m, k) && ParseObject(s, p).Parsed?
    ensures ParseObject(m, k) == Parsed(ParseObject(s, p).value, j) && Rest(s, ParseObject(s, p).end, m, j)
    decreases |s| - p, 1
  {
    hide Rest, Skip, ParseObject, ParseMembers;
    ObjectBegins(s, p);
    RestFits(s, p, m, k);
    OneKept(s, p, m, k);
    ObjectParts(s, p);
    ObjectParts(m, k);
    var q := Skip(s, p + 1);
    if At(s, q) == '}' {
      SkipToMark(s, p + 1, m, k + 1);
      j := Skip(m, k + 1) + 1;
    } else {
      MembersBegin(s, q);
      SkipToName(s, p + 1, m, k + 1);
      j := MembersKept(s, q, m, Skip(m, k + 1));
    }
  }

  lemma MembersBegin(s: string, q: nat)
    requires q <= |s| && ParseMembers(s, q).Parsed?
    ensures q < |s| && s[q] == '"' && At(s, q) == '"'
  {
  }

  // Behind the blanks a name begins in both texts.
  lemma SkipToName(s: string, p: nat, m: string, k: nat)
    requires Rest(s, p, m, k) && At(s, Skip(s, p)) == '"'
    ensures Rest(s, Skip(s, p), m, Skip(m, k)) && At(m, Skip(m, k)) == '"'
  {
    SkipKept(s, p, m, k);
    RestFits(s, Skip(s, p), m, Skip(m, k));
    hide Skip, Rest;
  }

  lemma MembersParts(s: string, p: nat)
    requires p <= |s| && ParseMember(s, p).Parsed?
    ensures
      var v, e := ParseMember(s, p).value, ParseMember(s, p).end;
      var q := Skip(s, e);
      && (At(s, q) == ',' ==> (ParseMembers(s, p).Parsed? <==> ParseMembers(s, Skip(s, q + 1)).Parsed?))
      && (At(s, q) == ',' && ParseMembers(s, p).Parsed? ==>
            ParseMembers(s, p) ==
            Parsed([v] + ParseMembers(s, Skip(s, q + 1)).value, ParseMembers(s, Skip(s, q + 1)).end))
      && (At(s, q) == '}' ==> ParseMembers(s, p) == Parsed([v], q + 1))
      && (At(s, q) != ',' && At(s, q) != '}' ==> !ParseMembers(s, p).Parsed?)
  {
    hide ParseMember, Skip;
  }

  lemma MembersJoin(s: string, p: nat, m: string, k: nat, q: nat, l: nat, j: nat)
    requires p <= |s| && ParseMember(s, p).Parsed? && q == Skip(s, ParseMember(s, p).end)
    requires k <= |m| && ParseMember(m, k).Parsed? && l == Skip(m, ParseMember(m, k).end)
    requires ParseMember(m, k).value == ParseMember(s, p).value && q < |s| && l < |m| && m[l] == s[q]
    requires s[q] == ',' ==>
      && ParseMembers(s, Skip(s, q + 1)).Parsed?
      && ParseMembers(m, Skip(m, l + 1)) == Parsed(ParseMembers(s, Skip(s, q + 1)).value, j)
    requires s[q] != ',' ==> s[q] == '}' && j == l + 1
    ensures ParseMembers(s, p).Parsed? && ParseMembers(m, k) == Parsed(ParseMembers(s, p).value, j)
    ensures ParseMembers(s, p).end == if s[q] == ',' then ParseMembers(s, Skip(s, q + 1)).end else q + 1
  {
    hide ParseMembers, ParseMember, Skip;
    MembersParts(s, p);
    MembersParts(m, k);
  }

  lemma MembersMark(s: string, p: nat)
    requires p <= |s| && ParseMembers(s, p).Parsed?
    ensures ParseMember(s, p).Parsed? && Follows(s, ParseMember(s, p).end)
    ensures
      var q := Skip(s, ParseMember(s, p).end);
      q < |s| && At(s, q) == s[q] && (s[q] == ',' || s[q] == '}') && (s[q] == ',' ==> ParseMembers(s, Skip(s, q + 1)).Parsed?)
  {
    hide ParseMember, Skip;
  }

  lemma {:induction false} MembersKept(s: string, p: nat, m: string, k: nat) returns (j: nat)
    requires Rest(s, p, m, k) && ParseMembers(s, p).Parsed?
    ensures ParseMembers(m, k) == Parsed(ParseMembers(s, p).value, j) && Rest(s, ParseMembers(s, p).end, m, j)
    decreases |s| - p, 4
  {
    hide *;
    RestFits(s, p, m, k);
    MembersMark(s, p);
    var e := ParseMember(s, p).end;
    var q := Skip(s, e);
    var i := MemberKept(s, p, m, k);
    SkipToMark(s, e, m, i);
    var l := Skip(m, i);
    if s[q] == ',' {
      MembersBegin(s, Skip(s, q + 1));
      SkipToName(s, q + 1, m, l + 1);
      j := MembersKept(s, Skip(s, q + 1), m, Skip(m, l + 1));
    } else {
      j := l + 1;
    }
    MembersJoin(s, p, m, k, q, l, j);
  }

  lemma {:induction false} MemberKept(s: string, p: nat, m: string, k: nat) returns (j: nat)
    requires Rest(s, p, m, k) && ParseMember(s, p).Parsed? && Follows(s, ParseMember(s, p).end)
    ensures ParseMember(m, k) == Parsed(ParseMember(s, p).value, j) && Rest(s, ParseMember(s, p).end, m, j)
    decreases |s| - p, 3
  {
    hide *;
    RestFits(s, p, m, k);
    MemberMark(s, p);
    StringKept(s, p, m, k);
    var e := ParseString(s, p).end;
    var i := k + (e - p);
    var q := Skip(s, e);
    SkipToMark(s, e, m, i);
    var l := Skip(m, i);
    SkipToValue(s, q + 1, m, l + 1);
    j := ValueKept(s, Skip(s, q + 1), m, Skip(m, l + 1));
    MemberJoin(s, p, m, k, q, l, j);
  }

  lemma MemberMark(s: string, p: nat)
    requires p <= |s| && ParseMember(s, p).Parsed?
    ensures At(s, p) == '"' && ParseString(s, p).Parsed?
    ensures
      var q := Skip(s, ParseString(s, p).end);
      q < |s| && At(s, q) == s[q] == ':' && ParseValue(s, Skip(s, q + 1)).Parsed?
      && ParseValue(s, Skip(s, q + 1)).end == ParseMember(s, p).end
  {
    hide ParseValue, Skip;
    assert At(s, p) == '"';
    hide ParseString;
  }

  lemma MemberJoin(s: string, p: nat, m: string, k: nat, q: nat, l: nat, j: nat)
    requires p <= |s| && ParseString(s, p).Parsed? && q == Skip(s, ParseString(s, p).end)
    requires k <= |m| && ParseString(m, k).Parsed? && l == Skip(m, ParseString(m, k).end)
    requires ParseString(m, k).value == ParseString(s, p).value && q < |s| && l < |m| && m[l] == s[q] == ':'
    requires ParseValue(s, Skip(s, q + 1)).Parsed?
    requires ParseValue(m, Skip(m, l + 1)) == Parsed(ParseValue(s, Skip(s, q + 1)).value, j)
    ensures ParseMember(s, p).Parsed? && ParseMember(m, k) == Parsed(ParseMember(s, p).value, j)
  {
    hide ParseString, ParseValue, Skip, ParseMember;
    MemberParts(s, p);
    MemberParts(m, k);
  }

  // The value behind the name
  lemma MemberParts(s: string, p: nat)
    requires p <= |s| && ParseString(s, p).Parsed?
    ensures
      var name, q := ParseString(s, p).value, Skip(s, ParseString(s, p).end);
      && (At(s, q) != ':' ==> !ParseMember(s, p).Parsed?)
      && (At(s, q) == ':' ==> (ParseMember(s, p).Parsed? <==> ParseValue(s, Skip(s, q + 1)).Parsed?))
      && (At(s, q) == ':' && ParseMember(s, p).Parsed? ==>
            ParseMember(s, p) == Parsed(Member(name, ParseValue(s, Skip(s, q + 1)).value), ParseValue(s, Skip(s, q + 1)).end))
  {
    hide ParseString, ParseValue, Skip;
  }

  // --------------------------------------------------------------------- the whole text

  // For every text that the parser accepts to its end, whose literals are closed and end at the
  // same quote for the parser and the minifier, the minified text is accepted to its end with
  // the same value.  Outside its literals such a text has no slash.
  lemma MinifyKeepsMeaning(s: string)
    requires Parse(s, true).Parsed? && Sound(s, 0) && M.Minify(s, 0).Some?
    ensures
      var m := M.Minify(s, 0).text;
      Parse(m, true) == Parsed(Parse(s, true).value, |m|)
    ensures Slashless(s, 0, |s|)
  {
    var m := M.Minify(s, 0).text;
    assert m[0..] == m;
    assert Rest(s, 0, m, 0);
    var p := Skip(s, 0);
    var e := ParseValue(s, p).end;
    assert Skip(s, e) == |s| && Follows(s, e);
    hide Rest, Follows, ParseValue;
    SkipToValue(s, 0, m, 0);
    var j := ValueKept(s, p, m, Skip(m, 0));
    SkipKept(s, e, m, j);
    RestFits(s, |s|, m, Skip(m, j));
    RestFits(s, e, m, j);
    hide Skip;
  }

  // An escape without its digits does no harm as long as it stays inside the quotes.
  const MALFORMED := ['"', '\\', 'u', 'z', 'z', 'z', 'z', '"']

  lemma MalformedEscape()
    ensures !Complete(MALFORMED[1..7]) && Sound(MALFORMED, 0) && Parse(MALFORMED, true).Parsed?
    ensures M.Minify(MALFORMED, 0) == M.Some(MALFORMED)
  {
    var s := MALFORMED;
    assert s[1..7][2] == 'z';
    assert Hex4(s, 3) == 0 by { assert !IsHex(s[3]); }
    assert DecodeEscape(s, 2) == ([], 7);
    assert Decode(s, 1) == Parsed([], 7) by { assert Decode(s, 7) == Parsed([], 7) && [] + [] == ""; }
    assert Measure(s, 3).Parsed? by { assert Measure(s, 5).Parsed? && Measure(s, 4).Parsed?; }
    assert Measure(s, 1).Parsed?;
    assert ParseString(s, 0) == Parsed([], 8);
    Words(s, 0);
    assert ParseValue(s, 0).Parsed? && ParseValue(s, 0).end == 8;
    assert M.LiteralEnd(s, 3) == 8 by { assert M.LiteralEnd(s, 5) == 8 && M.LiteralEnd(s, 4) == 8; }
    assert M.LiteralEnd(s, 1) == 8;
    assert M.Minify(s, 8) == M.Some([]) && s[0..8] + [] == s;
  }

  // A literal with an incomplete escape may be read beyond its closing quote, and then the
  // minified text is a different one: here it runs out of the text.
  const INCOMPLETE := ['"', '\\', 'u', '1', '2', '"', ' ', 'x', '"']

  lemma IncompleteEscape()
    ensures Parse(INCOMPLETE, true).Parsed? && !Sound(INCOMPLETE, 0)
    ensures M.Minify(INCOMPLETE, 0) == M.Cut
  {
    var s := INCOMPLETE;
    assert Hex4(s, 3) == 0 by { assert !IsHex(s[5]); }
    assert DecodeEscape(s, 2) == ([], 7);
    assert Decode(s, 8) == Parsed([], 8);
    assert Decode(s, 7) == Parsed(['x'], 8) by { assert ['x'] + [] == ['x']; }
    assert Decode(s, 1) == Parsed(['x'], 8) by { assert [] + ['x'] == ['x']; }
    assert Measure(s, 3) == Parsed(2, 5) by { assert Measure(s, 4) == Parsed(1, 5); }
    assert ParseString(s, 0) == Parsed(['x'], 9);
    Words(s, 0);
    assert ParseValue(s, 0).Parsed? && ParseValue(s, 0).end == 9;
    assert M.LiteralEnd(s, 3) == 6 by { assert M.LiteralEnd(s, 4) == 6; }
    assert M.LiteralEnd(s, 1) == 6;
    assert M.Minify(s, 8) == M.Cut && M.Minify(s, 7) == M.Cut && M.Minify(s, 6) == M.Cut;
    assert s[1..5][0] == '\\' && s[1..5][1] == 'u';
  }

  // Where two literals hide a quote each, the minified text may even parse to another value:
  // of the blank that the first literal ends with for the parser nothing is left.
  const HIDING := "[\"\\u123\" \",\"\\u123\"a\"]"
  const SHORTER := "[\"\\u123\"\",\"\\u123\"a\"]"

  lemma MeaningChanges()
    ensures Parse(HIDING, true) == Parsed(Array([String(" "), String("a")]), |HIDING|)
    ensures M.Minify(HIDING, 0) == M.Some(SHORTER)
    ensures Parse(SHORTER, true) == Parsed(Array([String(""), String("a")]), |SHORTER|)
  {
    hide *;
    HidingShape(HIDING);
    HidingParses(HIDING);
    ShorterShape(SHORTER);
    ShorterParses(SHORTER);
    HidingMinified();
  }

  const HIDDEN := "\"\\u123\""

  // A literal whose first quote is hidden by an escape of three digits
  lemma HiddenQuote(s: string, p: nat, chars: string, e: nat)
    requires Occurs(s, p, HIDDEN) && Decode(s, p + 7) == Parsed(chars, e) && e < |s| && |chars| <= 4
    ensures ParseValue(s, p) == Parsed(String(chars), e + 1) && s[p] == '"'
  {
    HiddenChars(s, p);
    hide Occurs, Decode, Measure, ParseValue;
    HiddenDecoded(s, p, chars, e);
    HiddenMeasured(s, p);
    ValueIs(s, p);
  }

  lemma HiddenChars(s: string, p: nat)
    requires Occurs(s, p, HIDDEN)
    ensures p + 7 <= |s| && s[p] == s[p + 6] == '"' && s[p + 1] == '\\' && s[p + 2] == 'u'
    ensures forall i :: p + 3 <= i < p + 6 ==> s[i] != '"' && s[i] != '\\'
  {
    var t := HIDDEN;
    assert s[p] == t[0] && s[p + 1] == t[1] && s[p + 2] == t[2] && s[p + 3] == t[3];
    assert s[p + 4] == t[4] && s[p + 5] == t[5] && s[p + 6] == t[6];
  }

  lemma HiddenDecoded(s: string, p: nat, chars: string, e: nat)
    requires p + 7 <= |s| && s[p + 1] == '\\' && s[p + 2] == 'u' && s[p + 6] == '"'
    requires Decode(s, p + 7) == Parsed(chars, e)
    ensures Decode(s, p + 1) == Parsed(chars, e)
  {
    assert Hex4(s, p + 3) == 0 by { assert !IsHex(s[p + 6]); }
    assert DecodeEscape(s, p + 2) == ([], p + 7);
    hide Decode, DecodeEscape, Hex4;
    DecodeStep(s, p + 1, [], p + 7);
    assert [] + chars == chars;
  }

  lemma HiddenMeasured(s: string, p: nat)
    requires p + 7 <= |s| && s[p + 1] == '\\' && s[p + 6] == '"'
    requires forall i :: p + 3 <= i < p + 6 ==> s[i] != '"' && s[i] != '\\'
    ensures Measure(s, p + 1) == Parsed(4, p + 6)
  {
    assert Measure(s, p + 5) == Parsed(1, p + 6);
    assert Measure(s, p + 4) == Parsed(2, p + 6);
    assert Measure(s, p + 3) == Parsed(3, p + 6);
  }

  lemma LastCharacter(s: string, p: nat)
    requires p + 1 < |s| && s[p] != '"' && s[p] != '\\' && s[p + 1] == '"'
    ensures Decode(s, p) == Parsed([s[p]], p + 1)
  {
    DecodeNothing(s, p + 1);
    assert [s[p]] + [] == [s[p]];
  }

  lemma HidingShape(s: string)
    requires s == HIDING
    ensures |s| == 21 && Occurs(s, 1, HIDDEN) && Occurs(s, 11, HIDDEN)
    ensures s[0] == '[' && s[8] == ' ' && s[9] == '"' && s[10] == ',' && s[18] == 'a' && s[19] == '"' && s[20] == ']'
  {
  }

  lemma ShorterShape(s: string)
    requires s == SHORTER
    ensures |s| == 20 && Occurs(s, 1, HIDDEN) && Occurs(s, 10, HIDDEN)
    ensures s[0] == '[' && s[8] == '"' && s[9] == ',' && s[17] == 'a' && s[18] == '"' && s[19] == ']'
  {
  }

  lemma HidingParses(s: string)
    requires |s| == 21 && Occurs(s, 1, HIDDEN) && Occurs(s, 11, HIDDEN)
    requires s[0] == '[' && s[8] == ' ' && s[9] == '"' && s[10] == ',' && s[18] == 'a' && s[19] == '"' && s[20] == ']'
    ensures Parse(s, true) == Parsed(Array([String(" "), String("a")]), 21)
  {
    hide *;
    LastCharacter(s, 8);
    LastCharacter(s, 18);
    HiddenQuote(s, 1, [s[8]], 9);
    HiddenQuote(s, 11, [s[18]], 19);
    TwoItems(s, String(" "), 10, String("a"));
  }

  lemma ShorterParses(s: string)
    requires |s| == 20 && Occurs(s, 1, HIDDEN) && Occurs(s, 10, HIDDEN)
    requires s[0] == '[' && s[8] == '"' && s[9] == ',' && s[17] == 'a' && s[18] == '"' && s[19] == ']'
    ensures Parse(s, true) == Parsed(Array([String(""), String("a")]), 20)
  {
    hide *;
    DecodeNothing(s, 8);
    LastCharacter(s, 17);
    HiddenQuote(s, 1, [], 8);
    HiddenQuote(s, 10, [s[17]], 18);
    TwoItems(s, String(""), 9, String("a"));
  }

  // An array of two items without blanks
  lemma TwoItems(s: string, v: Json, e: nat, w: Json)
    requires |s| >= 4 && 2 <= e < |s| - 2 && s[0] == '[' && s[1] > ' ' && s[1] != ']' && s[e] == ',' && s[e + 1] > ' '
    requires s[|s| - 1] == ']'
    requires ParseValue(s, 1) == Parsed(v, e) && ParseValue(s, e + 1) == Parsed(w, |s| - 1)
    ensures Parse(s, true) == Parsed(Array([v, w]), |s|)
  {
    hide ParseValue, ParseItems, ParseArray;
    ItemsParts(s, e + 1);
    ItemsParts(s, 1);
    ArrayParts(s, 0);
    assert [v] + [w] == [v, w];
    ValueIs(s, 0);
  }

  // A piece of the text that is kept
  lemma Keeps(s: string, p: nat, q: nat, m: string, k: nat)
    requires p < q <= |s| && k + q - p <= |m| && M.Minify(s, q) == M.Some(m[k + q - p..])
    requires forall i :: p <= i < q ==> s[i] == m[i + k - p]
    requires !M.IsBlank(s[p]) && s[p] != '/' && q == (if s[p] == '"' then M.LiteralEnd(s, p + 1) else p + 1)
    ensures M.Minify(s, p) == M.Some(m[k..])
  {
    assert m[k..] == s[p..q] + m[k + q - p..];
  }

  lemma HidingMinified()
    ensures M.Minify(HIDING, 0) == M.Some(SHORTER)
  {
    hide M.LiteralEnd, M.Minify;
    var s, m := HIDING, SHORTER;
    assert m[0..] == m;
    LiteralEnds(s);
    RightKept(s, m);
    LeftKept(s, m);
  }

  lemma LiteralEnds(s: string)
    requires s == HIDING
    ensures M.LiteralEnd(s, 18) == 20 && M.LiteralEnd(s, 10) == 12 && M.LiteralEnd(s, 2) == 8
  {
    assert M.LiteralEnd(s, 19) == 20;
    assert M.LiteralEnd(s, 11) == 12;
    assert M.LiteralEnd(s, 7) == 8;
    assert M.LiteralEnd(s, 6) == 8;
    assert M.LiteralEnd(s, 5) == 8;
    assert M.LiteralEnd(s, 4) == 8;
  }

  lemma RightKept(s: string, m: string)
    requires |s| == 21 && |m| == 20 && forall i :: 9 <= i < 21 ==> s[i] == m[i - 1]
    requires s[9] == s[17] == '"' && M.LiteralEnd(s, 18) == 20 && M.LiteralEnd(s, 10) == 12
    requires forall i :: 12 <= i < 17 || i == 20 ==> M.IsPlain(s[i])
    ensures M.Minify(s, 9) == M.Some(m[8..])
  {
    hide M.LiteralEnd, M.Minify;
    LastKept(s, m);
    PlainKept(s, 12, 17, m, 11);
    Keeps(s, 9, 12, m, 8);
  }

  lemma LastKept(s: string, m: string)
    requires |s| == 21 && |m| == 20 && forall i :: 17 <= i < 21 ==> s[i] == m[i - 1]
    requires s[17] == '"' && M.LiteralEnd(s, 18) == 20 && M.IsPlain(s[20])
    ensures M.Minify(s, 17) == M.Some(m[16..])
  {
    NothingKept(s, m);
    hide M.LiteralEnd, M.Minify;
    Keeps(s, 20, 21, m, 19);
    Keeps(s, 17, 20, m, 16);
  }

  lemma NothingKept(s: string, m: string)
    ensures M.Minify(s, |s|) == M.Some(m[|m|..])
  {
  }

  lemma {:induction false} PlainKept(s: string, p: nat, q: nat, m: string, k: nat)
    requires p <= q <= |s| && k + q - p <= |m| && M.Minify(s, q) == M.Some(m[k + q - p..])
    requires forall i :: p <= i < q ==> s[i] == m[i + k - p] && M.IsPlain(s[i])
    ensures M.Minify(s, p) == M.Some(m[k..])
    decreases q - p
  {
    hide M.Minify;
    if p < q {
      PlainKept(s, p + 1, q, m, k + 1);
      assert M.IsPlain(s[p]);
      Keeps(s, p, p + 1, m, k);
    }
  }

  lemma LeftKept(s: string, m: string)
    requires |s| == 21 && |m| == 20 && M.Minify(s, 9) == M.Some(m[8..]) && forall i :: 0 <= i < 8 ==> s[i] == m[i]
    requires s[0] == '[' && s[1] == '"' && s[8] == ' ' && M.LiteralEnd(s, 2) == 8
    ensures M.Minify(s, 0) == M.Some(m[0..])
  {
    hide M.LiteralEnd, M.Minify;
    BlankDropped(s, 8);
    Keeps(s, 1, 8, m, 1);
    Keeps(s, 0, 1, m, 0);
  }

  lemma BlankDropped(s: string, p: nat)
    requires p < |s| && M.IsBlank(s[p])
    ensures M.Minify(s, p) == M.Minify(s, p + 1)
  {
  }
}
