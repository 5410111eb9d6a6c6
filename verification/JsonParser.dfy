// The parser of cJSON in its own form: pointers walk the text, loops read digits, items and
// members (3rdParty/libcjson/cJSON.c:92-107, 259-298, 318-345, 397-434).
module JsonParser {
  import opened CText
  import opened Json
  import opened JsonGrammar
  import JsonStrings

  // skip
  method SkipBlanks(s: string, p: nat) returns (q: nat)
    requires NulFree(s) && p <= |s|
    ensures q == Skip(s, p)
  {
    q := p;
    while At(s, q) != NUL && At(s, q) <= ' '
      invariant p <= q <= |s| && Skip(s, q) == Skip(s, p)
      decreases |s| - q
    {
      q := q + 1;
    }
  }

  // A run of at least one digit goes on the number from the left.
  method ReadDigits(s: string, p: nat, n: real) returns (q: nat, n': real)
    requires p <= |s| && n == n.Floor as real
    ensures q == DigitsEnd(s, p) && n' == Digits(n.Floor, s, p, q) as real
  {
    q, n' := p, n;
    while '0' <= At(s, q) <= '9'
      invariant p <= q <= |s| && n' == n'.Floor as real
      invariant DigitsEnd(s, q) == DigitsEnd(s, p)
      invariant Digits(n'.Floor, s, q, DigitsEnd(s, p)) == Digits(n.Floor, s, p, DigitsEnd(s, p))
      decreases |s| - q
    {
      var next := n' * 10.0 + (At(s, q) as int - '0' as int) as real;
      assert next.Floor == 10 * n'.Floor + (At(s, q) as int - '0' as int);
      n' := next;
      q := q + 1;
    }
  }

  lemma NoDigits(s: string, p: nat)
    requires p <= |s|
    ensures Digits(0, s, p, p) == 0
  {
  }

  // The integer part of parse_number, from behind the sign
  method ReadInteger(s: string, p: nat) returns (n: real, num: nat)
    requires NulFree(s) && p <= |s|
    ensures num == IntegerEnd(s, p) && n == Digits(0, s, ZeroEnd(s, p), num) as real
  {
    hide Digits, DigitsEnd;
    n, num := 0.0, p;
    if At(s, num) == '0' {
      num := num + 1;
    }
    NoDigits(s, num);
    if '1' <= At(s, num) <= '9' {
      num, n := ReadDigits(s, num, n);
    }
  }

  // The sign, the integer part and the fraction of parse_number
  method ReadMantissa(s: string, p: nat) returns (sign: real, n: real, scale: int, num: nat)
    requires NulFree(s) && p <= |s|
    ensures n == n.Floor as real
    ensures sign * n == MantissaAt(s, p).n as real
    ensures scale == MantissaAt(s, p).scale && num == MantissaAt(s, p).end
  {
    hide Digits, DigitsEnd, IntegerEnd, ZeroEnd;
    sign, scale, num := 1.0, 0, p;
    if At(s, num) == '-' {
      sign, num := -1.0, num + 1;
    }
    n, num := ReadInteger(s, num);
    if At(s, num) == '.' && '0' <= At(s, num + 1) <= '9' {
      var from := num + 1;
      num, n := ReadDigits(s, from, n);
      scale := scale - (num - from);
    }
  }

  // The exponent of parse_number
  method ReadExponent(s: string, p: nat) returns (subscale: int, signsubscale: int, num: nat)
    requires NulFree(s) && p <= |s|
    ensures ExponentAt(s, p) == (subscale * signsubscale, num)
  {
    hide Digits, DigitsEnd;
    subscale, signsubscale, num := 0, 1, p;
    if At(s, num) == 'e' || At(s, num) == 'E' {
      num := num + 1;
      if At(s, num) == '+' {
        num := num + 1;
      } else if At(s, num) == '-' {
        signsubscale, num := -1, num + 1;
      }
      var x;
      num, x := ReadDigits(s, num, 0.0);
      subscale := x.Floor;
    }
  }

  // The mantissa scaled by the exponent, less the places behind the point
  method Raise(value: real, power: int, ghost n: int) returns (d: real)
    requires value == n as real
    ensures d == Scaled(n, power)
  {
    d := value * Pow10(power);
  }

  // parse_number
  method ReadNumber(s: string, p: nat) returns (r: Result<Json>)
    requires NulFree(s) && p <= |s|
    ensures r == ParseNumber(s, p)
  {
    hide MantissaAt, ExponentAt, Scaled;
    var sign, n, scale, num := ReadMantissa(s, p);
    var subscale, signsubscale, end := ReadExponent(s, num);
    var d := Raise(sign * n, scale + subscale * signsubscale, MantissaAt(s, p).n);
    r := Parsed(Number(d), end);
  }

  // parse_string, its buffer read back as the string it holds
  method ReadString(s: string, p: nat) returns (r: Result<string>)
    requires NulFree(s) && p <= |s| && !ParseString(s, p).Undefined?
    ensures r == ParseString(s, p)
  {
    hide ParseString, Decode, Measure, Holds;
    JsonStrings.Passes(s, p);
    var out, end := JsonStrings.ParseStringBuffer(s, p);
    if out == null {
      r := Failed(end);
    } else {
      JsonStrings.DecodedNulFree(s, p + 1);
      ghost var t := ParseString(s, p).value;
      var n := StrLen(out, t);
      HoldsPrefix(out, t);
      r := Parsed(out[..n], end);
    }
  }

  lemma HoldsPrefix(out: array<char>, t: string)
    requires Holds(out, t)
    ensures |t| < out.Length && out[..|t|] == t
  {
  }

  // What is left to do in an array after some items, at the first character behind the last.
  function MoreItems(s: string, items: seq<Json>, q: nat): Result<seq<Json>>
    requires q <= |s|
  {
    if At(s, q) == ',' then
      match ParseItems(s, Skip(s, q + 1))
      case Parsed(rest, end) => Parsed(items + rest, end)
      case Failed(at) => Failed(at)
      case Undefined => Undefined
    else if At(s, q) == ']' then Parsed(items, q + 1)
    else Failed(q)
  }

  function MoreMembers(s: string, members: seq<Member>, q: nat): Result<seq<Member>>
    requires q <= |s|
  {
    if At(s, q) == ',' then
      match ParseMembers(s, Skip(s, q + 1))
      case Parsed(rest, end) => Parsed(members + rest, end)
      case Failed(at) => Failed(at)
      case Undefined => Undefined
    else if At(s, q) == '}' then Parsed(members, q + 1)
    else Failed(q)
  }

  // Reading one more item at p, behind the items already read.
  lemma OneMoreItem(s: string, items: seq<Json>, p: nat)
    requires p <= |s|
    ensures ParseValue(s, p).Failed? ==> ParseItems(s, p) == Failed(ParseValue(s, p).at)
    ensures ParseValue(s, p).Undefined? ==> ParseItems(s, p).Undefined?
    ensures ParseValue(s, p).Parsed? ==>
      var q := Skip(s, ParseValue(s, p).end);
      MoreItems(s, items + [ParseValue(s, p).value], q)
      == (match ParseItems(s, p)
          case Parsed(rest, end) => Parsed(items + rest, end)
          case Failed(at) => Failed(at)
          case Undefined => Undefined)
  {
    hide ParseValue;
    if ParseValue(s, p).Parsed? {
      var v, q := ParseValue(s, p).value, Skip(s, ParseValue(s, p).end);
      if At(s, q) == ',' && ParseItems(s, Skip(s, q + 1)).Parsed? {
        var rest := ParseItems(s, Skip(s, q + 1)).value;
        assert items + ([v] + rest) == (items + [v]) + rest;
      }
    }
  }

  lemma OneMoreMember(s: string, members: seq<Member>, p: nat)
    requires p <= |s|
    ensures ParseMember(s, p).Failed? ==> ParseMembers(s, p) == Failed(ParseMember(s, p).at)
    ensures ParseMember(s, p).Undefined? ==> ParseMembers(s, p).Undefined?
    ensures ParseMember(s, p).Parsed? ==>
      var q := Skip(s, ParseMember(s, p).end);
      MoreMembers(s, members + [ParseMember(s, p).value], q)
      == (match ParseMembers(s, p)
          case Parsed(rest, end) => Parsed(members + rest, end)
          case Failed(at) => Failed(at)
          case Undefined => Undefined)
  {
    hide ParseMember;
    if ParseMember(s, p).Parsed? {
      var m, q := ParseMember(s, p).value, Skip(s, ParseMember(s, p).end);
      if At(s, q) == ',' && ParseMembers(s, Skip(s, q + 1)).Parsed? {
        var rest := ParseMembers(s, Skip(s, q + 1)).value;
        assert members + ([m] + rest) == (members + [m]) + rest;
      }
    }
  }

  // parse_value
  method ReadValue(s: string, p: nat) returns (r: Result<Json>)
    requires NulFree(s) && p <= |s| && !ParseValue(s, p).Undefined?
    ensures r == ParseValue(s, p)
    decreases |s| - p, 2
  {
    hide ParseString, ParseNumber, ParseArray, ParseObject;
    if Occurs(s, p, "null") {
      r := Parsed(Null, p + 4);
    } else if Occurs(s, p, "false") {
      r := Parsed(False, p + 5);
    } else if Occurs(s, p, "true") {
      r := Parsed(True, p + 4);
    } else if At(s, p) == '"' {
      var t := ReadString(s, p);
      match t {
        case Parsed(chars, end) => r := Parsed(String(chars), end);
        case Failed(at) => r := Failed(at);
      }
    } else if At(s, p) == '-' || '0' <= At(s, p) <= '9' {
      r := ReadNumber(s, p);
    } else if At(s, p) == '[' {
      r := ReadArray(s, p);
    } else if At(s, p) == '{' {
      r := ReadObject(s, p);
    } else {
      r := Failed(p);
    }
  }

  // parse_array
  method ReadArray(s: string, p: nat) returns (r: Result<Json>)
    requires NulFree(s) && p <= |s| && !ParseArray(s, p).Undefined?
    ensures r == ParseArray(s, p)
    decreases |s| - p, 1
  {
    hide ParseValue, ParseItems;
    if At(s, p) != '[' {
      return Failed(p);
    }
    var value := SkipBlanks(s, p + 1);
    if At(s, value) == ']' {
      return Parsed(Array([]), value + 1);
    }
    ghost var start := value;
    OneMoreItem(s, [], value);
    var child := ReadValue(s, value);
    if child.Failed? {
      return Failed(child.at);
    }
    value := SkipBlanks(s, child.end);
    var items := [child.value];
    assert [] + [child.value] == items;
    while At(s, value) == ','
      invariant p < value <= |s|
      invariant !ParseItems(s, start).Undefined?
      invariant MoreItems(s, items, value)
             == match ParseItems(s, start)
                case Parsed(rest, end) => Parsed([] + rest, end)
                case Failed(at) => Failed(at)
                case Undefined => Undefined
      decreases |s| - value
    {
      value := SkipBlanks(s, value + 1);
      OneMoreItem(s, items, value);
      child := ReadValue(s, value);
      if child.Failed? {
        return Failed(child.at);
      }
      value := SkipBlanks(s, child.end);
      items := items + [child.value];
    }
    r := if At(s, value) == ']' then Parsed(Array(items), value + 1) else Failed(value);
    if ParseItems(s, start).Parsed? {
      assert [] + ParseItems(s, start).value == ParseItems(s, start).value;
    }
  }

  // One "name : value" of an object, with the blanks around it.
  method ReadMember(s: string, p: nat) returns (r: Result<Member>)
    requires NulFree(s) && p <= |s| && !ParseMember(s, p).Undefined?
    ensures r == ParseMember(s, p)
    decreases |s| - p, 3
  {
    hide ParseValue, ParseString;
    var name := ReadString(s, p);
    if name.Failed? {
      return Failed(name.at);
    }
    var value := SkipBlanks(s, name.end);
    if At(s, value) != ':' {
      return Failed(value);
    }
    value := SkipBlanks(s, value + 1);
    var v := ReadValue(s, value);
    if v.Failed? {
      return Failed(v.at);
    }
    r := Parsed(Member(name.value, v.value), v.end);
  }

  // parse_object
  method ReadObject(s: string, p: nat) returns (r: Result<Json>)
    requires NulFree(s) && p <= |s| && !ParseObject(s, p).Undefined?
    ensures r == ParseObject(s, p)
    decreases |s| - p, 1
  {
    hide ParseMember, ParseMembers;
    if At(s, p) != '{' {
      return Failed(p);
    }
    var value := SkipBlanks(s, p + 1);
    if At(s, value) == '}' {
      return Parsed(Object([]), value + 1);
    }
    ghost var start := value;
    OneMoreMember(s, [], value);
    var child := ReadMember(s, value);
    if child.Failed? {
      return Failed(child.at);
    }
    value := SkipBlanks(s, child.end);
    var members := [child.value];
    assert [] + [child.value] == members;
    while At(s, value) == ','
      invariant p < value <= |s|
      invariant !ParseMembers(s, start).Undefined?
      invariant MoreMembers(s, members, value)
             == match ParseMembers(s, start)
                case Parsed(rest, end) => Parsed([] + rest, end)
                case Failed(at) => Failed(at)
                case Undefined => Undefined
      decreases |s| - value
    {
      value := SkipBlanks(s, value + 1);
      OneMoreMember(s, members, value);
      child := ReadMember(s, value);
      if child.Failed? {
        return Failed(child.at);
      }
      value := SkipBlanks(s, child.end);
      members := members + [child.value];
    }
    r := if At(s, value) == '}' then Parsed(Object(members), value + 1) else Failed(value);
    if ParseMembers(s, start).Parsed? {
      assert [] + ParseMembers(s, start).value == ParseMembers(s, start).value;
    }
  }

  // cJSON_ParseWithOpts
  method ParseWithOpts(s: string, requireNullTerminated: bool) returns (r: Result<Json>)
    requires NulFree(s) && !Parse(s, requireNullTerminated).Undefined?
    ensures r == Parse(s, requireNullTerminated)
  {
    hide ParseValue;
    var value := SkipBlanks(s, 0);
    r := ReadValue(s, value);
    if r.Parsed? && requireNullTerminated {
      var end := SkipBlanks(s, r.end);
      if At(s, end) != NUL {
        return Failed(end);
      }
      r := Parsed(r.value, end);
    }
  }
}
