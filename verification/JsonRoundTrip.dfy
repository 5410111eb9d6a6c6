// Parsing what was printed gives the tree back, at every depth, formatted or not, and stops
// exactly behind the printed text.
module JsonRoundTrip {
  import opened CText
  import opened Json
  import opened JsonText
  import opened JsonGrammar

  // Nothing at q would be read as more of a number that ends there.
  predicate CannotExtendNumber(s: string, q: nat)
    requires q <= |s|
  {
    && !IsDigit(At(s, q))
    && !HasExponent(s, q)
    && !(At(s, q) == '.' && IsDigit(At(s, q + 1)))
  }

  // -------------------------------------------------------------------- numbers

  lemma {:induction false} DigitsSnoc(n: int, s: string, p: nat, q: nat)
    requires p <= q < |s|
    ensures Digits(n, s, p, q + 1) == 10 * Digits(n, s, p, q) + (s[q] as int - '0' as int)
    decreases q - p
  {
    if p < q {
      DigitsSnoc(10 * n + (s[p] as int - '0' as int), s, p + 1, q);
    }
  }

  lemma {:induction false} DecimalDigits(n: nat, s: string, p: nat)
    requires Occurs(s, p, Decimal(n))
    ensures forall k :: p <= k < p + |Decimal(n)| ==> IsDigit(s[k])
    ensures |Decimal(n)| > 0
    ensures n == 0 ==> Decimal(n) == "0"
    ensures n > 0 ==> '1' <= s[p] <= '9'
    ensures Digits(0, s, p, p + |Decimal(n)|) == n
  {
    hide Occurs;
    OccursWithin(s, p, Decimal(n));
    if n < 10 {
      OccursChar(s, p, Digit(n));
      assert Digits(0, s, p, p + 1) == Digits(s[p] as int - '0' as int, s, p + 1, p + 1);
    } else {
      OccursConcat(s, p, Decimal(n / 10), [Digit(n % 10)]);
      var q := p + |Decimal(n / 10)|;
      OccursChar(s, q, Digit(n % 10));
      DecimalDigits(n / 10, s, p);
      DigitsSnoc(0, s, p, q);
    }
  }

  lemma {:induction false} DigitsEndIs(s: string, p: nat, q: nat)
    requires p <= q <= |s|
    requires forall k :: p <= k < q ==> IsDigit(s[k])
    requires !IsDigit(At(s, q))
    ensures DigitsEnd(s, p) == q
    decreases q - p
  {
    if p < q {
      DigitsEndIs(s, p + 1, q);
    }
  }

  // An integer behind an optional sign.
  lemma NaturalRoundTrip(n: nat, s: string, p: nat)
    requires Occurs(s, p, Decimal(n))
    requires CannotExtendNumber(s, p + |Decimal(n)|)
    ensures IntegerEnd(s, p) == p + |Decimal(n)|
    ensures Digits(0, s, ZeroEnd(s, p), IntegerEnd(s, p)) == n
  {
    DecimalDigits(n, s, p);
    var q := p + |Decimal(n)|;
    if n == 0 {
      OccursChar(s, p, '0');
    } else {
      DigitsEndIs(s, p, q);
    }
  }

  lemma IntRoundTrip(d: real, s: string, p: nat)
    requires IsInt(d)
    requires Occurs(s, p, IntText(d.Floor))
    requires CannotExtendNumber(s, p + |IntText(d.Floor)|)
    ensures At(s, p) == '-' || IsDigit(At(s, p))
    ensures ParseNumber(s, p) == Parsed(Number(d), p + |IntText(d.Floor)|)
  {
    hide Digits, DigitsEnd, Decimal, Occurs;
    var n := d.Floor;
    if n < 0 {
      OccursConcat(s, p, "-", Decimal(-n));
      OccursChar(s, p, '-');
      NaturalRoundTrip(-n, s, p + 1);
    } else {
      DecimalDigits(n, s, p);
      OccursFirst(s, p, Decimal(n));
      assert IsDigit(s[p]);
      NaturalRoundTrip(n, s, p);
    }
    assert MantissaAt(s, p) == Mantissa(n, 0, p + |IntText(n)|);
    assert ExponentAt(s, p + |IntText(n)|) == (0, p + |IntText(n)|);
    assert Scaled(n, 0) == d by {
      assert Pow10(0) == 1.0;
    }
  }

  // -------------------------------------------------------------------- strings

  lemma DecodeControl(c: char, s: string, p: nat)
    requires NUL < c < ' '
    requires Occurs(s, p, "\\u00" + [Digit(c as int / 16), Digit(c as int % 16)])
    ensures p + 6 <= |s| && s[p] == '\\' && DecodeEscape(s, p + 1) == ([c], p + 6)
    ensures forall k :: p + 2 <= k < p + 6 ==> IsHex(s[k])
  {
    var h := c as int;
    var t := "\\u00" + [Digit(h / 16), Digit(h % 16)];
    assert s[p] == t[0] && s[p + 1] == t[1] && s[p + 2] == t[2] && s[p + 3] == t[3]
        && s[p + 4] == t[4] && s[p + 5] == t[5];
    assert s[p + 4] == Digit(h / 16) && s[p + 5] == Digit(h % 16);
    assert HexDigit(s[p + 4]) == h / 16 && HexDigit(s[p + 5]) == h % 16;
    assert Hex4(s, p + 2) == h;
  }

  lemma DecodeShort(c: char, s: string, p: nat)
    requires HasShortForm(c) && Occurs(s, p, Escape(c))
    ensures |Escape(c)| == 2 && p + 2 <= |s| && s[p] == '\\'
    ensures DecodeEscape(s, p + 1) == ([c], p + 2)
  {
    assert s[p] == Escape(c)[0] && s[p + 1] == Escape(c)[1];
    assert SimpleEscape(s[p + 1]) == c && s[p + 1] != 'u';
  }

  lemma DecodeOne(c: char, s: string, p: nat)
    requires c != NUL
    requires Occurs(s, p, Escape(c))
    ensures p + |Escape(c)| <= |s| && |Escape(c)| > 0 && s[p] != '"'
    ensures s[p] != '\\' ==> c == s[p] && |Escape(c)| == 1
    ensures s[p] == '\\' ==> DecodeEscape(s, p + 1) == ([c], p + |Escape(c)|)
    ensures s[p] == '\\' ==> 2 <= |Escape(c)| && forall k :: p + 2 <= k < p + |Escape(c)| ==> IsHex(s[k])
  {
    hide DecodeEscape;
    if HasShortForm(c) {
      DecodeShort(c, s, p);
    } else if c < ' ' {
      DecodeControl(c, s, p);
    } else {
      assert s[p] == Escape(c)[0];
    }
  }

  lemma {:induction false} MeasureHex(s: string, p: nat, q: nat)
    requires p <= q <= |s|
    requires forall k :: p <= k < q ==> IsHex(s[k])
    ensures Measure(s, q).Parsed? ==> Measure(s, p) == Parsed(Measure(s, q).value + (q - p), Measure(s, q).end)
    decreases q - p
  {
    if p < q {
      MeasureHex(s, p + 1, q);
    }
  }

  lemma {:induction false} EscapedRoundTrip(t: string, s: string, p: nat)
    requires NulFree(t)
    requires Occurs(s, p, EscapeAll(t) + "\"")
    ensures Decode(s, p) == Parsed(t, p + |EscapeAll(t)|)
    ensures Measure(s, p).Parsed? && Measure(s, p).end == p + |EscapeAll(t)|
    ensures |t| <= Measure(s, p).value
  {
    hide Occurs, Escape, DecodeEscape;
    if t == [] {
      OccursChar(s, p, '"');
      assert EscapeAll(t) + "\"" == "\"";
    } else {
      var c, rest := t[0], t[1..];
      assert EscapeAll(t) + "\"" == Escape(c) + (EscapeAll(rest) + "\"");
      OccursConcat(s, p, Escape(c), EscapeAll(rest) + "\"");
      var next := p + |Escape(c)|;
      DecodeOne(c, s, p);
      EscapedRoundTrip(rest, s, next);
      assert [c] + rest == t;
      if s[p] == '\\' {
        MeasureHex(s, p + 2, next);
      }
    }
  }

  lemma StringRoundTrip(t: string, s: string, p: nat)
    requires NulFree(t)
    requires Occurs(s, p, Quote(t))
    ensures At(s, p) == '"'
    ensures ParseString(s, p) == Parsed(t, p + |Quote(t)|)
  {
    assert Quote(t) == "\"" + (EscapeAll(t) + "\"");
    OccursConcat(s, p, "\"", EscapeAll(t) + "\"");
    OccursChar(s, p, '"');
    EscapedRoundTrip(t, s, p + 1);
    OccursConcat(s, p + 1, EscapeAll(t), "\"");
    OccursChar(s, p + 1 + |EscapeAll(t)|, '"');
  }

  // -------------------------------------------------------------------- blanks

  lemma {:induction false} SkipTabs(n: int, s: string, p: nat)
    requires Occurs(s, p, Tabs(n))
    ensures Skip(s, p) == Skip(s, p + |Tabs(n)|)
  {
    if n > 0 {
      OccursConcat(s, p, "\t", Tabs(n - 1));
      OccursChar(s, p, '\t');
      SkipTabs(n - 1, s, p + 1);
    }
  }

  // A printed value starts with a character that is neither blank nor a bracket that would
  // end the enclosing list.
  lemma FirstCharacter(v: Json, depth: nat, fmt: bool)
    requires Plain(v)
    ensures var t := Text(v, depth, fmt); |t| > 0 && t[0] > ' ' && t[0] != ']'
  {
    if v.Number? {
      var n := v.valuedouble.Floor;
      if n >= 0 {
        var t := Decimal(n);
        DecimalDigits(n, t, 0);
        assert IsDigit(t[0]);
      }
    }
  }

  // -------------------------------------------------------------------- values

  // What follows a printed number must not be read as a part of it.
  predicate EndsCleanly(v: Json, s: string, q: nat)
    requires q <= |s|
  {
    v.Number? ==> CannotExtendNumber(s, q)
  }

  lemma {:induction false} ValueRoundTrip(v: Json, depth: nat, fmt: bool, s: string, p: nat)
    requires Plain(v)
    requires Occurs(s, p, Text(v, depth, fmt))
    requires EndsCleanly(v, s, p + |Text(v, depth, fmt)|)
    ensures ParseValue(s, p) == Parsed(v, p + |Text(v, depth, fmt)|)
    decreases v, 2
  {
    FirstCharacter(v, depth, fmt);
    OccursFirst(s, p, Text(v, depth, fmt));
    NotALiteral(s, p);
    match v
    case Null =>
    case False =>
    case True =>
    case Number(d) => IntRoundTrip(d, s, p);
    case String(t) => StringRoundTrip(t, s, p);
    case Array(items) => ArrayRoundTrip(v, depth, fmt, s, p);
    case Object(members) => ObjectRoundTrip(v, depth, fmt, s, p);
  }

  // Only n, f and t start a literal name.
  lemma NotALiteral(s: string, p: nat)
    requires p < |s|
    ensures Occurs(s, p, "null") ==> s[p] == 'n'
    ensures Occurs(s, p, "false") ==> s[p] == 'f'
    ensures Occurs(s, p, "true") ==> s[p] == 't'
  {
    OccursConcat(s, p, "n", "ull");
    OccursChar(s, p, 'n');
    assert "null" == "n" + "ull";
    OccursConcat(s, p, "f", "alse");
    OccursChar(s, p, 'f');
    assert "false" == "f" + "alse";
    OccursConcat(s, p, "t", "rue");
    OccursChar(s, p, 't');
    assert "true" == "t" + "rue";
  }

  lemma {:induction false} ArrayRoundTrip(v: Json, depth: nat, fmt: bool, s: string, p: nat)
    requires Plain(v) && v.Array?
    requires Occurs(s, p, Text(v, depth, fmt))
    ensures ParseArray(s, p) == Parsed(v, p + |Text(v, depth, fmt)|)
    decreases v, 1
  {
    hide Occurs, ParseItems;
    var inner := ItemsText(v.items, depth + 1, fmt);
    assert Text(v, depth, fmt) == "[" + (inner + "]");
    OccursConcat(s, p, "[", inner + "]");
    OccursChar(s, p, '[');
    OccursConcat(s, p + 1, inner, "]");
    OccursChar(s, p + 1 + |inner|, ']');
    if v.items != [] {
      FirstCharacter(v.items[0], depth + 1, fmt);
      OccursFirst(s, p + 1, inner);
      ItemsRoundTrip(v.items, depth + 1, fmt, s, p + 1);
    }
  }

  lemma ItemsTextSplit(items: seq<Json>, depth: nat, fmt: bool)
    requires PlainItems(items) && items != []
    ensures ItemsText(items, depth, fmt) + "]"
         == Text(items[0], depth, fmt)
            + (if items[1..] == [] then "]" else Comma(fmt) + (ItemsText(items[1..], depth, fmt) + "]"))
  {
    hide Text;
  }

  lemma ParseItemsLast(s: string, p: nat, v: Json, q: nat)
    requires p <= |s| && ParseValue(s, p) == Parsed(v, q) && At(s, q) == ']'
    ensures ParseItems(s, p) == Parsed([v], q + 1)
  {
    hide ParseValue;
    assert Skip(s, q) == q;
  }

  lemma ParseItemsMore(s: string, p: nat, v: Json, q: nat, rest: seq<Json>, end: nat)
    requires p <= |s| && ParseValue(s, p) == Parsed(v, q) && At(s, q) == ','
    requires ParseItems(s, Skip(s, q + 1)) == Parsed(rest, end)
    ensures ParseItems(s, p) == Parsed([v] + rest, end)
  {
    hide ParseValue;
    assert Skip(s, q) == q;
  }

  lemma CommaRoundTrip(fmt: bool, more: string, s: string, q: nat)
    requires Occurs(s, q, Comma(fmt) + more) && more != [] && more[0] > ' '
    ensures q < |s| && s[q] == ',' && Skip(s, q + 1) == q + |Comma(fmt)| && Occurs(s, q + |Comma(fmt)|, more)
  {
    hide Occurs;
    var blank := if fmt then " " else "";
    assert Comma(fmt) == "," + blank;
    OccursConcat(s, q, Comma(fmt), more);
    OccursConcat(s, q, ",", blank);
    OccursChar(s, q, ',');
    OccursChar(s, q + 1, ' ');
    OccursFirst(s, q + |Comma(fmt)|, more);
  }

  lemma {:induction false} ItemsRoundTrip(items: seq<Json>, depth: nat, fmt: bool, s: string, p: nat)
    requires PlainItems(items) && items != []
    requires Occurs(s, p, ItemsText(items, depth, fmt) + "]")
    ensures ParseItems(s, p) == Parsed(items, p + |ItemsText(items, depth, fmt)| + 1)
    decreases items, 3
  {
    hide Occurs, ParseValue, Text, ParseItems, ItemsText, Skip, Comma;
    var v, rest := items[0], items[1..];
    var text := Text(v, depth, fmt);
    ItemsTextSplit(items, depth, fmt);
    var q := p + |text|;
    if rest == [] {
      OccursConcat(s, p, text, "]");
      OccursChar(s, q, ']');
      ValueRoundTrip(v, depth, fmt, s, p);
      ParseItemsLast(s, p, v, q);
      assert items == [v];
    } else {
      var more := ItemsText(rest, depth, fmt) + "]";
      OccursConcat(s, p, text, Comma(fmt) + more);
      var r := q + |Comma(fmt)|;
      ItemsTextSplit(rest, depth, fmt);
      FirstCharacter(rest[0], depth, fmt);
      CommaRoundTrip(fmt, more, s, q);
      ItemsRoundTrip(rest, depth, fmt, s, r);
      ValueRoundTrip(v, depth, fmt, s, p);
      ParseItemsMore(s, p, v, q, rest, r + |more|);
      assert items == [v] + rest;
    }
  }

  lemma {:induction false} ObjectRoundTrip(v: Json, depth: nat, fmt: bool, s: string, p: nat)
    requires Plain(v) && v.Object?
    requires Occurs(s, p, Text(v, depth, fmt))
    ensures ParseObject(s, p) == Parsed(v, p + |Text(v, depth, fmt)|)
    decreases v, 1
  {
    hide Occurs, ParseMembers, MembersText, Tabs, Skip;
    var open := if fmt then "\n" else "";
    var d := if v.members == [] then depth else depth + 1;
    var close := (if fmt then Tabs(d - 1) else "") + "}";
    var inner := if v.members == [] then "" else MembersText(v.members, depth + 1, fmt);
    assert Text(v, depth, fmt) == "{" + (open + (inner + close));
    OccursConcat(s, p, "{", open + (inner + close));
    OccursChar(s, p, '{');
    OccursConcat(s, p + 1, open, inner + close);
    SkipLine(fmt, s, p + 1);
    var q := p + 1 + |open|;
    if v.members == [] {
      assert inner + close == close;
      CloseRoundTrip(d, fmt, s, q);
    } else {
      MembersRoundTrip(v.members, d, fmt, s, q);
    }
  }

  lemma MembersTextSplit(members: seq<Member>, depth: nat, fmt: bool, close: string)
    requires PlainMembers(members) && members != []
    ensures MembersText(members, depth, fmt) + close
         == MemberText(members[0], depth, fmt)
            + ((if members[1..] == [] then "" else ",")
               + ((if fmt then "\n" else "") + (MembersText(members[1..], depth, fmt) + close)))
  {
    hide MemberText;
  }

  lemma NoMembersText(depth: nat, fmt: bool, close: string)
    ensures MembersText([], depth, fmt) + close == close
  {
  }

  lemma ParseMembersLast(s: string, p: nat, m: Member, q: nat)
    requires p <= |s| && ParseMember(s, p) == Parsed(m, q) && At(s, Skip(s, q)) == '}'
    ensures ParseMembers(s, p) == Parsed([m], Skip(s, q) + 1)
  {
    hide ParseMember;
  }

  lemma ParseMembersMore(s: string, p: nat, m: Member, q: nat, rest: seq<Member>, end: nat)
    requires p <= |s| && ParseMember(s, p) == Parsed(m, q) && At(s, q) == ','
    requires ParseMembers(s, Skip(s, q + 1)) == Parsed(rest, end)
    ensures ParseMembers(s, p) == Parsed([m] + rest, end)
  {
    hide ParseMember;
    assert Skip(s, q) == q;
  }

  // The closing line of an object, read from its first character on.
  lemma CloseRoundTrip(depth: nat, fmt: bool, s: string, p: nat)
    requires Occurs(s, p, (if fmt then Tabs(depth - 1) else "") + "}")
    ensures At(s, Skip(s, p)) == '}' && Skip(s, p) == p + |if fmt then Tabs(depth - 1) else ""|
  {
    hide Occurs;
    var tabs := if fmt then Tabs(depth - 1) else "";
    OccursConcat(s, p, tabs, "}");
    OccursChar(s, p + |tabs|, '}');
    if fmt {
      SkipTabs(depth - 1, s, p);
    }
  }

  lemma SkipLine(fmt: bool, s: string, p: nat)
    requires Occurs(s, p, if fmt then "\n" else "")
    ensures Skip(s, p) == Skip(s, p + |if fmt then "\n" else ""|)
  {
    OccursChar(s, p, '\n');
  }

  // Behind a member
  lemma SeparatorRoundTrip(last: bool, fmt: bool, more: string, s: string, q: nat)
    requires Occurs(s, q, (if last then "" else ",") + ((if fmt then "\n" else "") + more))
    ensures
      var comma, line := if last then "" else ",", if fmt then "\n" else "";
      var r := q + |comma| + |line|;
      && q + |comma| <= |s| && r <= |s| && Occurs(s, r, more) && Skip(s, q + |comma|) == Skip(s, r)
      && (!last ==> q < |s| && s[q] == ',')
  {
    hide Occurs;
    var comma, line := if last then "" else ",", if fmt then "\n" else "";
    OccursConcat(s, q, comma, line + more);
    OccursChar(s, q, ',');
    OccursConcat(s, q + |comma|, line, more);
    OccursWithin(s, q + |comma| + |line|, more);
    SkipLine(fmt, s, q + |comma|);
  }

  lemma OccursWithin(s: string, p: nat, t: string)
    requires Occurs(s, p, t)
    ensures p + |t| <= |s|
  {
  }

  lemma {:induction false} MembersRoundTrip(members: seq<Member>, depth: nat, fmt: bool, s: string, p: nat)
    requires PlainMembers(members) && members != []
    requires Occurs(s, p, MembersText(members, depth, fmt) + ((if fmt then Tabs(depth - 1) else "") + "}"))
    ensures At(s, Skip(s, p)) == '"'
    ensures ParseMembers(s, Skip(s, p))
         == Parsed(members, p + |MembersText(members, depth, fmt)| + |if fmt then Tabs(depth - 1) else ""| + 1)
    decreases members, 3
  {
    hide Occurs, ParseMember, ParseMembers, MemberText, MembersText, Tabs;
    var m, rest := members[0], members[1..];
    var text := MemberText(m, depth, fmt);
    var close := (if fmt then Tabs(depth - 1) else "") + "}";
    var line := if fmt then "\n" else "";
    var comma := if rest == [] then "" else ",";
    var more := MembersText(rest, depth, fmt) + close;
    MembersTextSplit(members, depth, fmt, close);
    OccursConcat(s, p, text, comma + (line + more));
    var q := p + |text|;
    SeparatorRoundTrip(rest == [], fmt, more, s, q);
    var r := q + |comma| + |line|;
    if rest == [] {
      NoMembersText(depth, fmt, close);
      CloseRoundTrip(depth, fmt, s, r);
      MemberRoundTrip(m, depth, fmt, s, p);
      ParseMembersLast(s, Skip(s, p), m, q);
      assert members == [m];
    } else {
      MembersRoundTrip(rest, depth, fmt, s, r);
      MemberRoundTrip(m, depth, fmt, s, p);
      ParseMembersMore(s, Skip(s, p), m, q, rest, r + |more|);
      assert members == [m] + rest;
    }
  }

  lemma {:induction false} MemberRoundTrip(m: Member, depth: nat, fmt: bool, s: string, p: nat)
    requires NulFree(m.name) && Plain(m.value)
    requires Occurs(s, p, MemberText(m, depth, fmt))
    requires CannotExtendNumber(s, p + |MemberText(m, depth, fmt)|)
    ensures At(s, Skip(s, p)) == '"'
    ensures ParseMember(s, Skip(s, p)) == Parsed(m, p + |MemberText(m, depth, fmt)|)
    decreases m, 3
  {
    hide Occurs, ParseString, ParseValue, Text, KeyText, Skip;
    var key := KeyText(m.name, depth, fmt);
    var value := Text(m.value, depth, fmt);
    OccursConcat(s, p, key, value);
    var t := p + |key|;
    FirstCharacter(m.value, depth, fmt);
    OccursFirst(s, t, value);
    KeyRoundTrip(m.name, depth, fmt, s, p);
    ValueRoundTrip(m.value, depth, fmt, s, t);
  }

  // A name is read back, then the colon and what follows it, up to the value.
  lemma KeyRoundTrip(name: string, depth: nat, fmt: bool, s: string, p: nat)
    requires NulFree(name)
    requires Occurs(s, p, KeyText(name, depth, fmt))
    requires At(s, p + |KeyText(name, depth, fmt)|) > ' '
    ensures At(s, Skip(s, p)) == '"' && ParseString(s, Skip(s, p)).Parsed?
    ensures var r := ParseString(s, Skip(s, p));
      && r.value == name && At(s, Skip(s, r.end)) == ':'
      && Skip(s, Skip(s, r.end) + 1) == p + |KeyText(name, depth, fmt)|
  {
    hide Occurs, ParseString, Quote, Tabs;
    var indent := if fmt then Tabs(depth) else "";
    var tab := if fmt then "\t" else "";
    assert KeyText(name, depth, fmt) == indent + (Quote(name) + (":" + tab));
    OccursConcat(s, p, indent, Quote(name) + (":" + tab));
    if fmt { SkipTabs(depth, s, p); }
    var q := p + |indent|;
    OccursConcat(s, q, Quote(name), ":" + tab);
    StringRoundTrip(name, s, q);
    assert Skip(s, p) == q;
    var r := q + |Quote(name)|;
    OccursConcat(s, r, ":", tab);
    OccursChar(s, r, ':');
    OccursChar(s, r + 1, '\t');
    assert Skip(s, r + 1) == r + 1 + |tab|;
  }

  // -------------------------------------------------------------------- main results

  // parse_value undoes print_value and leaves what follows unread.
  lemma ParseUndoesPrint(v: Json, depth: nat, fmt: bool, suffix: string)
    requires Plain(v)
    requires EndsCleanly(v, suffix, 0)
    ensures ParseValue(Text(v, depth, fmt) + suffix, 0) == Parsed(v, |Text(v, depth, fmt)|)
  {
    var text := Text(v, depth, fmt);
    var s := text + suffix;
    ValueRoundTrip(v, depth, fmt, s, 0);
  }

  // cJSON_Parse of cJSON_Print or cJSON_PrintUnformatted, with or without the demand that
  // nothing follows.
  lemma RoundTrip(v: Json, fmt: bool, toTheEnd: bool)
    requires Plain(v)
    ensures Parse(Text(v, 0, fmt), toTheEnd) == Parsed(v, |Text(v, 0, fmt)|)
  {
    var text := Text(v, 0, fmt);
    assert text + "" == text;
    ParseUndoesPrint(v, 0, fmt, "");
    FirstCharacter(v, 0, fmt);
  }

  // Different trees never print alike, whatever the depths and formats.
  lemma PrintIsInjective(v: Json, w: Json, depth: nat, depth': nat, fmt: bool, fmt': bool)
    requires Plain(v) && Plain(w)
    requires Text(v, depth, fmt) == Text(w, depth', fmt')
    ensures v == w
  {
    var text := Text(v, depth, fmt);
    assert text + "" == text;
    ParseUndoesPrint(v, depth, fmt, "");
    ParseUndoesPrint(w, depth', fmt', "");
  }
}
