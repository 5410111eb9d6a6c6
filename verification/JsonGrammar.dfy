// What the recursive-descent parser of cJSON computes, as functions of the text and the
// position it starts at (3rdParty/libcjson/cJSON.c:92-107, 126-210, 259-298, 318-345, 397-434).
module JsonGrammar {
  import opened CText
  import opened Json

  // Parsed: the value and the position behind it.
  // Failed: a null result with the error position set to at.
  // Undefined: a literal cut short made the code read behind the terminator of the text or
  // write behind the buffer it asked for, where C promises nothing.
  datatype Result<+T> =
    | Parsed(value: T, end: nat)
    | Failed(at: nat)
    | Undefined

  // Control characters and blanks are passed over.
  function Skip(s: string, p: nat): (q: nat)
    requires p <= |s|
    ensures p <= q <= |s|
    ensures q == |s| || s[q] > ' '
    decreases |s| - p
  {
    if p < |s| && s[p] <= ' ' then Skip(s, p + 1) else p
  }

  // -------------------------------------------------------------------- numbers

  function DigitsEnd(s: string, p: nat): (q: nat)
    requires p <= |s|
    ensures p <= q <= |s|
    ensures forall k :: p <= k < q ==> IsDigit(s[k])
    ensures !IsDigit(At(s, q))
    decreases |s| - p
  {
    if p < |s| && IsDigit(s[p]) then DigitsEnd(s, p + 1) else p
  }

  // n continued by the digits s[p..q)
  function Digits(n: int, s: string, p: nat, q: nat): int
    requires p <= q <= |s|
    decreases q - p
  {
    if p == q then n else Digits(10 * n + (s[p] as int - '0' as int), s, p + 1, q)
  }

  function Pow10(e: int): real
    decreases if e < 0 then -e else e
  {
    if e == 0 then 1.0 else if e > 0 then 10.0 * Pow10(e - 1) else Pow10(e + 1) / 10.0
  }

  // The value of the digits n and the power of ten e
  function Scaled(n: int, e: int): real {
    n as real * Pow10(e)
  }

  // Where the integer part ends: one zero is skipped, then a run of digits
  // that starts with a nonzero one.
  function IntegerEnd(s: string, p: nat): (q: nat)
    requires p <= |s|
    ensures p <= q <= |s|
  {
    var z := ZeroEnd(s, p);
    if '1' <= At(s, z) <= '9' then DigitsEnd(s, z) else z
  }

  function ZeroEnd(s: string, p: nat): (q: nat)
    requires p <= |s|
    ensures p <= q <= |s|
  {
    if At(s, p) == '0' then p + 1 else p
  }

  function FractionEnd(s: string, p: nat): (q: nat)
    requires p <= |s|
    ensures p <= q <= |s|
  {
    if At(s, p) == '.' && IsDigit(At(s, p + 1)) then DigitsEnd(s, p + 1) else p
  }

  predicate HasExponent(s: string, p: nat)
    requires p <= |s|
  {
    At(s, p) == 'e' || At(s, p) == 'E'
  }

  function ExponentStart(s: string, p: nat): (q: nat)
    requires p < |s|
    ensures p < q <= |s|
  {
    if At(s, p + 1) == '+' || At(s, p + 1) == '-' then p + 2 else p + 1
  }

  datatype Mantissa = Mantissa(n: int, scale: int, end: nat)

  // The sign, the integer part and the fraction, all its digits taken as one number.
  function MantissaAt(s: string, p: nat): (m: Mantissa)
    requires p <= |s|
    ensures p <= m.end <= |s|
  {
    var sign := if At(s, p) == '-' then -1 else 1;
    var p0 := if At(s, p) == '-' then p + 1 else p;
    var p1 := IntegerEnd(s, p0);
    var p2 := FractionEnd(s, p1);
    var whole := Digits(0, s, ZeroEnd(s, p0), p1);
    if p2 == p1 then Mantissa(sign * whole, 0, p1)
    else Mantissa(sign * Digits(whole, s, p1 + 1, p2), -(p2 - p1 - 1), p2)
  }

  // The signed exponent and where it ends.
  function ExponentAt(s: string, p: nat): (e: (int, nat))
    requires p <= |s|
    ensures p <= e.1 <= |s|
  {
    if HasExponent(s, p) then
      var q := ExponentStart(s, p);
      var end := DigitsEnd(s, q);
      (Digits(0, s, q, end) * (if At(s, p + 1) == '-' then -1 else 1), end)
    else (0, p)
  }

  // parse_number: sign * digits * 10^(scale+subscale)
  function ParseNumber(s: string, p: nat): (r: Result<Json>)
    requires p <= |s|
    ensures r.Parsed? && p <= r.end <= |s|
  {
    var m := MantissaAt(s, p);
    var e := ExponentAt(s, m.end);
    Parsed(Number(Scaled(m.n, m.scale + e.0)), e.1)
  }

  // -------------------------------------------------------------------- strings

  predicate IsHex(c: char) {
    '0' <= c <= '9' || 'A' <= c <= 'F' || 'a' <= c <= 'f'
  }

  function HexDigit(c: char): (h: int)
    ensures 0 <= h < 16
  {
    if '0' <= c <= '9' then c as int - '0' as int
    else if 'A' <= c <= 'F' then 10 + (c as int - 'A' as int)
    else if 'a' <= c <= 'f' then 10 + (c as int - 'a' as int)
    else 0
  }

  // parse_hex4: 0 unless four hexadecimal digits follow; it stops reading at the first other character.
  function Hex4(s: string, p: nat): (h: int)
    requires p <= |s|
    ensures 0 <= h < 0x10000
    ensures h != 0 ==> p + 4 <= |s|
  {
    if p + 4 <= |s| && (forall k :: p <= k < p + 4 ==> IsHex(s[k])) then
      ((HexDigit(s[p]) * 16 + HexDigit(s[p + 1])) * 16 + HexDigit(s[p + 2])) * 16 + HexDigit(s[p + 3])
    else 0
  }

  predicate LowSurrogate(u: int) { 0xDC00 <= u <= 0xDFFF }

  predicate HighSurrogate(u: int) { 0xD800 <= u <= 0xDBFF }

  // Section 2.2 of RFC 2781
  function Pair(hi: int, lo: int): (u: int)
    requires HighSurrogate(hi) && LowSurrogate(lo)
    ensures 0x10000 <= u < 0x110000
  {
    0x10000 + (hi - 0xD800) * 0x400 + (lo - 0xDC00)
  }

  // Section 3 of RFC 3629
  function Utf8(u: int): (bytes: string)
    requires 0 <= u < 0x110000
    ensures 1 <= |bytes| <= 4
  {
    if u < 0x80 then [u as char]
    else if u < 0x800 then [(0xC0 + u / 0x40) as char, (0x80 + u % 0x40) as char]
    else if u < 0x10000 then
      [(0xE0 + u / 0x1000) as char, (0x80 + u / 0x40 % 0x40) as char, (0x80 + u % 0x40) as char]
    else
      [(0xF0 + u / 0x40000) as char, (0x80 + u / 0x1000 % 0x40) as char,
       (0x80 + u / 0x40 % 0x40) as char, (0x80 + u % 0x40) as char]
  }

  function SimpleEscape(c: char): char {
    match c
    case 'b' => 8 as char
    case 'f' => 12 as char
    case 'n' => '\n'
    case 'r' => '\r'
    case 't' => '\t'
    case _ => c
  }

  // The escape whose letter stands at p: the characters it writes and where reading goes on.
  function DecodeEscape(s: string, p: nat): (r: (string, nat))
    requires p <= |s|
    ensures r.1 > p
  {
    if At(s, p) != 'u' then ([SimpleEscape(At(s, p))], p + 1)
    else
      var uc := Hex4(s, p + 1);
      if LowSurrogate(uc) || uc == 0 then ([], p + 5)
      else if HighSurrogate(uc) then
        if p + 6 <= |s| && s[p + 5] == '\\' && At(s, p + 6) == 'u' then
          var uc2 := Hex4(s, p + 7);
          if LowSurrogate(uc2) then (Utf8(Pair(uc, uc2)), p + 11) else ([], p + 11)
        else ([], p + 5)
      else (Utf8(uc), p + 5)
  }

  // The second pass of parse_string: what it writes until the closing quote or the terminator.
  function Decode(s: string, p: nat): (r: Result<string>)
    ensures r.Parsed? ==> p <= r.end <= |s| && (r.end == |s| || s[r.end] == '"')
    ensures !r.Failed?
    decreases |s| - p
  {
    if p > |s| then Undefined
    else if p == |s| || s[p] == '"' then Parsed([], p)
    else
      var (chars, next) := if s[p] == '\\' then DecodeEscape(s, p + 1) else ([s[p]], p + 1);
      match Decode(s, next)
      case Parsed(rest, end) => Parsed(chars + rest, end)
      case Failed(at) => Failed(at)
      case Undefined => Undefined
  }

  // The first pass: how many characters it counts and where it stops.
  function Measure(s: string, p: nat): (r: Result<nat>)
    ensures r.Parsed? ==> p <= r.end <= |s|
    ensures !r.Failed?
    decreases |s| - p
  {
    if p > |s| then Undefined
    else if p == |s| || s[p] == '"' then Parsed(0, p)
    else
      match Measure(s, if s[p] == '\\' then p + 2 else p + 1)
      case Parsed(n, end) => Parsed(n + 1, end)
      case Failed(at) => Failed(at)
      case Undefined => Undefined
  }

  // parse_string; an unterminated literal ends with the text.  The first pass sizes the buffer
  // of the second.
  function ParseString(s: string, p: nat): (r: Result<string>)
    requires p <= |s|
    ensures r.Parsed? ==> p < r.end <= |s|
    ensures r.Failed? ==> p <= r.at <= |s|
  {
    if At(s, p) != '"' then Failed(p)
    else if Measure(s, p + 1).Undefined? then Undefined
    else
      match Decode(s, p + 1)
      case Parsed(chars, end) =>
        if |chars| > Measure(s, p + 1).value then Undefined
        else Parsed(chars, if end < |s| then end + 1 else end)
      case Failed(at) => Failed(at)
      case Undefined => Undefined
  }

  // -------------------------------------------------------------------- values

  function ParseValue(s: string, p: nat): (r: Result<Json>)
    requires p <= |s|
    ensures r.Parsed? ==> p <= r.end <= |s|
    ensures r.Failed? ==> p <= r.at <= |s|
    decreases |s| - p, 2
  {
    if Occurs(s, p, "null") then Parsed(Null, p + 4)
    else if Occurs(s, p, "false") then Parsed(False, p + 5)
    else if Occurs(s, p, "true") then Parsed(True, p + 4)
    else if At(s, p) == '"' then
      match ParseString(s, p)
      case Parsed(chars, end) => Parsed(String(chars), end)
      case Failed(at) => Failed(at)
      case Undefined => Undefined
    else if At(s, p) == '-' || IsDigit(At(s, p)) then ParseNumber(s, p)
    else if At(s, p) == '[' then ParseArray(s, p)
    else if At(s, p) == '{' then ParseObject(s, p)
    else Failed(p)
  }

  function ParseArray(s: string, p: nat): (r: Result<Json>)
    requires p <= |s|
    ensures r.Parsed? ==> p <= r.end <= |s|
    ensures r.Failed? ==> p <= r.at <= |s|
    decreases |s| - p, 1
  {
    if At(s, p) != '[' then Failed(p)
    else
      var q := Skip(s, p + 1);
      if At(s, q) == ']' then Parsed(Array([]), q + 1)
      else
        match ParseItems(s, q)
        case Parsed(items, end) => Parsed(Array(items), end)
        case Failed(at) => Failed(at)
        case Undefined => Undefined
  }

  // The items from position p, which is no whitespace, to the closing bracket.
  function ParseItems(s: string, p: nat): (r: Result<seq<Json>>)
    requires p <= |s|
    ensures r.Parsed? ==> p < r.end <= |s|
    ensures r.Failed? ==> p <= r.at <= |s|
    decreases |s| - p, 3
  {
    match ParseValue(s, p)
    case Failed(at) => Failed(at)
    case Undefined => Undefined
    case Parsed(v, end) =>
      var q := Skip(s, end);
      if At(s, q) == ',' then
        match ParseItems(s, Skip(s, q + 1))
        case Parsed(rest, end') => Parsed([v] + rest, end')
        case Failed(at) => Failed(at)
        case Undefined => Undefined
      else if At(s, q) == ']' then Parsed([v], q + 1)
      else Failed(q)
  }

  function ParseObject(s: string, p: nat): (r: Result<Json>)
    requires p <= |s|
    ensures r.Parsed? ==> p <= r.end <= |s|
    ensures r.Failed? ==> p <= r.at <= |s|
    decreases |s| - p, 1
  {
    if At(s, p) != '{' then Failed(p)
    else
      var q := Skip(s, p + 1);
      if At(s, q) == '}' then Parsed(Object([]), q + 1)
      else
        match ParseMembers(s, q)
        case Parsed(members, end) => Parsed(Object(members), end)
        case Failed(at) => Failed(at)
        case Undefined => Undefined
  }

  // One "name : value".
  function ParseMember(s: string, p: nat): (r: Result<Member>)
    requires p <= |s|
    ensures r.Parsed? ==> p < r.end <= |s|
    ensures r.Failed? ==> p <= r.at <= |s|
    decreases |s| - p, 3
  {
    match ParseString(s, p)
    case Failed(at) => Failed(at)
    case Undefined => Undefined
    case Parsed(name, end) =>
      var q := Skip(s, end);
      if At(s, q) != ':' then Failed(q)
      else
        match ParseValue(s, Skip(s, q + 1))
        case Failed(at) => Failed(at)
        case Undefined => Undefined
        case Parsed(v, end') => Parsed(Member(name, v), end')
  }

  function ParseMembers(s: string, p: nat): (r: Result<seq<Member>>)
    requires p <= |s|
    ensures r.Parsed? ==> p < r.end <= |s|
    ensures r.Failed? ==> p <= r.at <= |s|
    decreases |s| - p, 4
  {
    match ParseMember(s, p)
    case Failed(at) => Failed(at)
    case Undefined => Undefined
    case Parsed(m, end) =>
      var q := Skip(s, end);
      if At(s, q) == ',' then
        match ParseMembers(s, Skip(s, q + 1))
        case Parsed(rest, end') => Parsed([m] + rest, end')
        case Failed(at) => Failed(at)
        case Undefined => Undefined
      else if At(s, q) == '}' then Parsed([m], q + 1)
      else Failed(q)
  }

  // cJSON_ParseWithOpts; a failure has no tree.
  function Parse(s: string, toTheEnd: bool): (r: Result<Json>)
    ensures r.Parsed? ==> r.end <= |s|
    ensures r.Failed? ==> r.at <= |s|
  {
    match ParseValue(s, Skip(s, 0))
    case Parsed(v, end) =>
      if !toTheEnd then Parsed(v, end)
      else
        var q := Skip(s, end);
        if q == |s| then Parsed(v, q) else Failed(q)
    case Failed(at) => Failed(at)
    case Undefined => Undefined
  }
}
