// What string literals mean by the standards, and that the two passes of parse_string
// (3rdParty/libcjson/cJSON.c:126-210) agree with it and with each other.
module JsonLiterals {
  import opened CText
  import opened JsonGrammar

  // The parts of a string literal by section 7 of RFC 8259: an unescaped character, a
  // two-character escape, or a \u escape with its four digits.  The code lets any character
  // other than u follow the backslash of a short escape.
  datatype Unit =
    | Raw(c: char)
    | Short(c: char)
    | Hex(a: char, b: char, c2: char, d: char)
  {
    predicate WellFormed() {
      match this
      case Raw(c) => c != '"' && c != '\\' && c != NUL
      case Short(c) => c != 'u' && c != NUL
      case Hex(a, b, c, d) => IsHex(a) && IsHex(b) && IsHex(c) && IsHex(d)
    }

    function Source(): string {
      match this
      case Raw(c) => [c]
      case Short(c) => ['\\', c]
      case Hex(a, b, c, d) => ['\\', 'u', a, b, c, d]
    }

    // The UTF-16 code unit of a \u escape.
    function CodeUnit(): (u: int)
      requires Hex?
      ensures 0 <= u < 0x10000
    {
      HexDigit(a) * 0x1000 + HexDigit(b) * 0x100 + HexDigit(c2) * 0x10 + HexDigit(d)
    }
  }

  predicate WellFormed(us: seq<Unit>) {
    forall i :: 0 <= i < |us| ==> us[i].WellFormed()
  }

  // The characters between the quotes of a literal in which nothing is cut short: each
  // backslash has its letter and each \u its four digits.
  predicate Complete(b: string) {
    if b == [] then true
    else if b[0] == '\\' then
      if |b| >= 2 && b[1] == 'u' then |b| >= 6 && (forall k :: 2 <= k < 6 ==> IsHex(b[k])) && Complete(b[6..])
      else |b| >= 2 && b[1] != NUL && Complete(b[2..])
    else b[0] != '"' && b[0] != NUL && Complete(b[1..])
  }

  // The literal between its quotes.
  function Source(us: seq<Unit>): string {
    if us == [] then [] else us[0].Source() + Source(us[1..])
  }

  // What the first unit denotes, and how many units that takes.  A zero code unit and a low
  // surrogate on its own denote nothing, and neither does a high surrogate without a low one
  // behind it, which also takes a \u escape that follows it along.
  function Head(us: seq<Unit>): (r: (string, nat))
    requires us != []
    ensures 1 <= r.1 <= 2 && r.1 <= |us|
  {
    match us[0]
    case Raw(c) => ([c], 1)
    case Short(c) => ([SimpleEscape(c)], 1)
    case Hex(_, _, _, _) =>
      var u := us[0].CodeUnit();
      if u == 0 || LowSurrogate(u) then ([], 1)
      else if !HighSurrogate(u) then (Utf8(u), 1)
      else if |us| == 1 || !us[1].Hex? then ([], 1)
      else if !LowSurrogate(us[1].CodeUnit()) then ([], 2)
      else (Utf8(Pair(u, us[1].CodeUnit())), 2)
  }

  // What the literal denotes.
  function Meaning(us: seq<Unit>): string
    decreases |us|
  {
    if us == [] then [] else Head(us).0 + Meaning(us[Head(us).1..])
  }

  // The number of characters the first pass counts.
  function Measured(us: seq<Unit>): nat {
    if us == [] then 0 else (if us[0].Hex? then 5 else 1) + Measured(us[1..])
  }

  // Every complete literal is the source of units.
  lemma {:induction false} Units(b: string) returns (us: seq<Unit>)
    requires Complete(b)
    ensures WellFormed(us) && Source(us) == b
  {
    if b == [] {
      us := [];
    } else {
      var u, n := Raw(b[0]), 1;
      if b[0] == '\\' {
        if b[1] == 'u' {
          u, n := Hex(b[2], b[3], b[4], b[5]), 6;
        } else {
          u, n := Short(b[1]), 2;
        }
      }
      var rest := Units(b[n..]);
      us := [u] + rest;
      assert us[1..] == rest;
      assert b == u.Source() + b[n..];
    }
  }

  // -------------------------------------------------------------------- one unit

  lemma SourceHead(us: seq<Unit>, s: string, p: nat)
    requires us != [] && WellFormed(us)
    requires Occurs(s, p, Source(us) + "\"")
    ensures Occurs(s, p, us[0].Source())
    ensures Occurs(s, p + |us[0].Source()|, Source(us[1..]) + "\"")
    ensures WellFormed(us[1..])
    ensures |Source(us)| == |us[0].Source()| + |Source(us[1..])|
  {
    assert Source(us) + "\"" == us[0].Source() + (Source(us[1..]) + "\"");
    OccursConcat(s, p, us[0].Source(), Source(us[1..]) + "\"");
  }

  // What stands where a unit occurs, character by character.
  lemma UnitAt(u: Unit, s: string, p: nat)
    requires u.WellFormed() && Occurs(s, p, u.Source())
    ensures p < |s| && s[p] != '"'
    ensures u.Raw? <==> s[p] != '\\'
    ensures u.Raw? ==> s[p] == u.c
    ensures u.Short? ==> p + 2 <= |s| && s[p + 1] == u.c
    ensures u.Hex? ==> p + 6 <= |s| && s[p + 1] == 'u' && Hex4(s, p + 2) == u.CodeUnit()
    ensures u.Hex? ==> forall k :: p + 2 <= k < p + 6 ==> IsHex(s[k])
  {
    var t := u.Source();
    assert s[p] == t[0];
    if !u.Raw? {
      assert s[p + 1] == t[1];
    }
    if u.Hex? {
      assert s[p + 2] == t[2] && s[p + 3] == t[3] && s[p + 4] == t[4] && s[p + 5] == t[5];
    }
  }

  lemma HexMeasured(s: string, p: nat)
    requires p + 4 <= |s|
    requires forall k :: p <= k < p + 4 ==> IsHex(s[k])
    requires Measure(s, p + 4).Parsed?
    ensures Measure(s, p) == Parsed(Measure(s, p + 4).value + 4, Measure(s, p + 4).end)
  {
    assert Measure(s, p + 3) == Parsed(Measure(s, p + 4).value + 1, Measure(s, p + 4).end);
    assert Measure(s, p + 2) == Parsed(Measure(s, p + 3).value + 1, Measure(s, p + 3).end);
    assert Measure(s, p + 1) == Parsed(Measure(s, p + 2).value + 1, Measure(s, p + 2).end);
  }

  // -------------------------------------------------------------------- the passes

  lemma NoSource(us: seq<Unit>)
    ensures us == [] ==> Source(us) + "\"" == "\"" && |Source(us)| == 0
  {
  }

  // The first pass ends at the closing quote and counts as stated.
  lemma {:induction false} MeasureAgrees(us: seq<Unit>, s: string, p: nat)
    requires WellFormed(us)
    requires Occurs(s, p, Source(us) + "\"")
    ensures Measure(s, p) == Parsed(Measured(us), p + |Source(us)|)
  {
    hide Occurs, Source, Hex4;
    if us == [] {
      NoSource(us);
      OccursChar(s, p, '"');
    } else {
      SourceHead(us, s, p);
      UnitAt(us[0], s, p);
      MeasureAgrees(us[1..], s, p + |us[0].Source()|);
      if us[0].Hex? {
        HexMeasured(s, p + 2);
      }
    }
  }

  lemma DecodeStep(s: string, p: nat, chars: string, next: nat)
    requires p < |s| && s[p] != '"'
    requires (if s[p] == '\\' then DecodeEscape(s, p + 1) else ([s[p]], p + 1)) == (chars, next)
    requires Decode(s, next).Parsed?
    ensures Decode(s, p) == Parsed(chars + Decode(s, next).value, Decode(s, next).end)
  {
  }

  lemma DecodeUnfold(s: string, p: nat)
    requires p < |s| && s[p] != '"' && Decode(s, p).Parsed?
    ensures var (chars, next) := if s[p] == '\\' then DecodeEscape(s, p + 1) else ([s[p]], p + 1);
      && next <= |s| && Decode(s, next).Parsed?
      && Decode(s, p) == Parsed(chars + Decode(s, next).value, Decode(s, next).end)
  {
  }

  // Two \u escapes in a row, the first a high surrogate.
  lemma DecodePair(us: seq<Unit>, s: string, p: nat)
    requires WellFormed(us) && |us| >= 2 && us[0].Hex? && us[1].Hex? && HighSurrogate(us[0].CodeUnit())
    requires Occurs(s, p, us[0].Source()) && Occurs(s, p + 6, us[1].Source())
    ensures p < |s| && s[p] == '\\'
    ensures DecodeEscape(s, p + 1)
         == (if LowSurrogate(us[1].CodeUnit()) then Utf8(Pair(us[0].CodeUnit(), us[1].CodeUnit())) else [], p + 12)
  {
    hide Occurs, Utf8, Hex4;
    UnitAt(us[0], s, p);
    UnitAt(us[1], s, p + 6);
  }

  // A high surrogate with something else behind it.
  lemma DecodeLonelyHigh(us: seq<Unit>, s: string, p: nat)
    requires WellFormed(us) && us != [] && us[0].Hex? && HighSurrogate(us[0].CodeUnit())
    requires |us| > 1 ==> !us[1].Hex?
    requires Occurs(s, p, Source(us) + "\"")
    ensures p < |s| && s[p] == '\\'
    ensures DecodeEscape(s, p + 1) == ([], p + 6)
  {
    hide Occurs, Utf8, Hex4;
    SourceHead(us, s, p);
    UnitAt(us[0], s, p);
    var rest := us[1..];
    if rest == [] {
      assert Source(rest) + "\"" == "\"";
      OccursChar(s, p + 6, '"');
    } else {
      SourceHead(rest, s, p + 6);
      UnitAt(rest[0], s, p + 6);
    }
  }

  // What the second pass does with the first unit.
  lemma DecodeHead(us: seq<Unit>, s: string, p: nat)
    requires WellFormed(us) && us != []
    requires Occurs(s, p, Source(us) + "\"")
    ensures p < |s| && s[p] != '"' && WellFormed(us[Head(us).1..])
    ensures var next := p + |Source(us)| - |Source(us[Head(us).1..])|;
      && p < next
      && (if s[p] == '\\' then DecodeEscape(s, p + 1) else ([s[p]], p + 1)) == (Head(us).0, next)
      && Occurs(s, next, Source(us[Head(us).1..]) + "\"")
  {
    hide Occurs, DecodeEscape, Utf8, Hex4, Source;
    SourceHead(us, s, p);
    UnitAt(us[0], s, p);
    if us[0].Hex? && HighSurrogate(us[0].CodeUnit()) {
      if |us| > 1 && us[1].Hex? {
        SourceHead(us[1..], s, p + 6);
        DecodePair(us, s, p);
        assert us[1..][1..] == us[2..];
      } else {
        DecodeLonelyHigh(us, s, p);
      }
    } else {
      DecodeUnit(us[0], s, p);
    }
  }

  // The second pass writes what the literal denotes and ends at the same quote.
  lemma {:induction false} DecodeAgrees(us: seq<Unit>, s: string, p: nat)
    requires WellFormed(us)
    requires Occurs(s, p, Source(us) + "\"")
    ensures Decode(s, p) == Parsed(Meaning(us), p + |Source(us)|)
    decreases |us|
  {
    hide Occurs, DecodeEscape, Decode, Head, Source;
    if us == [] {
      NoSource(us);
      OccursChar(s, p, '"');
      DecodeNothing(s, p);
    } else {
      var n := Head(us).1;
      DecodeHead(us, s, p);
      var next := p + |Source(us)| - |Source(us[n..])|;
      DecodeAgrees(us[n..], s, next);
      DecodeStep(s, p, Head(us).0, next);
    }
  }

  lemma DecodeNothing(s: string, p: nat)
    requires p < |s| && s[p] == '"'
    ensures Decode(s, p) == Parsed([], p)
  {
  }

  lemma DecodeUnit(u: Unit, s: string, p: nat)
    requires u.WellFormed() && Occurs(s, p, u.Source())
    requires u.Hex? ==> !HighSurrogate(u.CodeUnit())
    ensures p < |s|
    ensures u.Short? ==> DecodeEscape(s, p + 1) == ([SimpleEscape(u.c)], p + 2)
    ensures u.Hex? ==>
      DecodeEscape(s, p + 1)
      == (if u.CodeUnit() == 0 || LowSurrogate(u.CodeUnit()) then [] else Utf8(u.CodeUnit()), p + 6)
  {
    hide Occurs, Hex4, Utf8;
    UnitAt(u, s, p);
  }

  // -------------------------------------------------------------------- main results

  lemma HeadFits(us: seq<Unit>)
    requires us != []
    ensures |Head(us).0| <= Measured(us) - Measured(us[Head(us).1..])
  {
    if |us| > 1 {
      assert us[1..][1..] == us[2..];
    }
  }

  // The buffer of the first pass holds what the second one writes.
  lemma {:induction false} MeaningFits(us: seq<Unit>)
    ensures |Meaning(us)| <= Measured(us)
    decreases |us|
  {
    hide Head, Measured;
    if us != [] {
      HeadFits(us);
      MeaningFits(us[Head(us).1..]);
    }
  }

  // For every literal with complete escapes parse_string returns what the literal denotes and
  // the position behind its closing quote, and the space it asked for suffices.
  lemma ParseStringAgrees(us: seq<Unit>, s: string, p: nat)
    requires WellFormed(us)
    requires Occurs(s, p, "\"" + (Source(us) + "\""))
    ensures ParseString(s, p) == Parsed(Meaning(us), p + |Source(us)| + 2)
    ensures Measure(s, p + 1) == Parsed(Measured(us), p + 1 + |Source(us)|)
    ensures |Meaning(us)| <= Measured(us)
  {
    hide Occurs, Decode, Measure, Source, Meaning, Measured;
    OccursConcat(s, p, "\"", Source(us) + "\"");
    OccursChar(s, p, '"');
    MeasureAgrees(us, s, p + 1);
    DecodeAgrees(us, s, p + 1);
    OccursConcat(s, p + 1, Source(us), "\"");
    OccursChar(s, p + 1 + |Source(us)|, '"');
    MeaningFits(us);
  }

  // -------------------------------------------------------------------- letters and digits

  // The short escapes of section 7 of RFC 8259, the letters behind the backslash and the code
  // points they stand for
  const LETTERS := "\"\\/bfnrt"
  const CODES: seq<int> := [0x22, 0x5C, 0x2F, 0x08, 0x0C, 0x0A, 0x0D, 0x09]

  // They are decoded by that table, and any other letter stands for itself.
  lemma ShortEscapes(c: char)
    ensures forall i :: 0 <= i < |LETTERS| ==> SimpleEscape(LETTERS[i]) as int == CODES[i]
    ensures c !in LETTERS ==> SimpleEscape(c) == c
  {
    assert LETTERS[0] == '"' && LETTERS[1] == '\\' && LETTERS[2] == '/' && LETTERS[3] == 'b';
    assert LETTERS[4] == 'f' && LETTERS[5] == 'n' && LETTERS[6] == 'r' && LETTERS[7] == 't';
  }

  const LOWER := "0123456789abcdef"
  const UPPER := "0123456789ABCDEF"

  // The digits in either case have the values 0 to 15, and nothing else is a digit.
  lemma HexDigits(c: char)
    ensures IsHex(c) <==> c in LOWER || c in UPPER
    ensures forall i :: 0 <= i < 16 ==> HexDigit(LOWER[i]) == i && HexDigit(UPPER[i]) == i
  {
    assert forall i :: 0 <= i < 16 ==> LOWER[i] == (if i < 10 then 48 + i else 87 + i) as char;
    assert forall i :: 0 <= i < 16 ==> UPPER[i] == (if i < 10 then 48 + i else 55 + i) as char;
    if IsHex(c) {
      assert c == (if c >= 'a' then LOWER else UPPER)[HexDigit(c)];
    }
  }

  // Four digits make a number in base 16, the first one being the highest.
  lemma HexValue(s: string, p: nat)
    requires p + 4 <= |s| && forall k :: p <= k < p + 4 ==> s[k] in LOWER || s[k] in UPPER
    ensures
      Hex4(s, p) == HexDigit(s[p]) * 0x1000 + HexDigit(s[p + 1]) * 0x100 + HexDigit(s[p + 2]) * 0x10 + HexDigit(s[p + 3])
  {
    HexDigits(s[p]);
    HexDigits(s[p + 1]);
    HexDigits(s[p + 2]);
    HexDigits(s[p + 3]);
    hide HexDigit;
  }

  // -------------------------------------------------------------------- the transcoding itself

  // Reading UTF-8 back (section 3 of RFC 3629).
  function FromUtf8(b: string): int {
    if |b| == 1 then b[0] as int
    else if |b| == 2 then (b[0] as int - 0xC0) * 0x40 + (b[1] as int - 0x80)
    else if |b| == 3 then (b[0] as int - 0xE0) * 0x1000 + (b[1] as int - 0x80) * 0x40 + (b[2] as int - 0x80)
    else if |b| == 4 then
      (b[0] as int - 0xF0) * 0x40000 + (b[1] as int - 0x80) * 0x1000
      + (b[2] as int - 0x80) * 0x40 + (b[3] as int - 0x80)
    else -1
  }

  predicate IsTail(c: char) { 0x80 <= c as int < 0xC0 }

  // The lead byte tells the length, the others are tails, and the code point can be read back:
  // different code points have different encodings and none is a prefix of another.
  lemma Utf8RoundTrip(u: int)
    requires 0 <= u < 0x110000
    ensures FromUtf8(Utf8(u)) == u
    ensures forall k :: 1 <= k < |Utf8(u)| ==> IsTail(Utf8(u)[k])
    ensures var lead := Utf8(u)[0] as int;
      |Utf8(u)| == (if lead < 0x80 then 1 else if lead < 0xE0 then 2 else if lead < 0xF0 then 3 else 4)
    ensures !IsTail(Utf8(u)[0]) && Utf8(u)[0] as int < 0xF5
  {
    if u >= 0x800 {
      assert u / 0x1000 == u / 0x40 / 0x40;
      assert u / 0x40000 == u / 0x1000 / 0x40;
    }
  }

  // A surrogate pair names exactly one code point beyond the basic plane, and every such code
  // point has exactly one pair.
  lemma PairRoundTrip(u: int)
    requires 0x10000 <= u < 0x110000
    ensures var hi, lo := 0xD800 + (u - 0x10000) / 0x400, 0xDC00 + (u - 0x10000) % 0x400;
      && HighSurrogate(hi) && LowSurrogate(lo) && Pair(hi, lo) == u
      && forall h, l :: HighSurrogate(h) && LowSurrogate(l) && Pair(h, l) == u ==> h == hi && l == lo
  {
  }
}
