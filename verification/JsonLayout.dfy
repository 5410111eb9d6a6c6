// What printed texts look like: their layout, written down from their tokens in one pass, and
// the escapes of their strings (3rdParty/libcjson/cJSON.c:213-246, 300-315, 346-401, 440-505).
module JsonLayout {
  import opened CText
  import opened Json
  import opened JsonText
  import L = JsonLiterals
  import G = JsonGrammar

  // --------------------------------------------------------------------- tokens

  datatype Kind = Items | Members

  datatype Token = Atom(text: string) | Open(kind: Kind) | Close(kind: Kind) | Comma | Colon

  function Tokens(v: Json): seq<Token>
    requires Plain(v)
    decreases v, 1
  {
    match v
    case Array(items) => [Open(Items)] + ItemsTokens(items) + [Close(Items)]
    case Object(members) => [Open(Members)] + MembersTokens(members) + [Close(Members)]
    case Null => [Atom("null")]
    case False => [Atom("false")]
    case True => [Atom("true")]
    case Number(d) => [Atom(IntText(d.Floor))]
    case String(s) => [Atom(Quote(s))]
  }

  function ItemsTokens(items: seq<Json>): seq<Token>
    requires PlainItems(items)
    decreases items, 0
  {
    if items == [] then []
    else Tokens(items[0]) + (if items[1..] == [] then [] else [Comma]) + ItemsTokens(items[1..])
  }

  function MembersTokens(members: seq<Member>): seq<Token>
    requires PlainMembers(members)
    decreases members, 0
  {
    if members == [] then []
    else
      [Atom(Quote(members[0].name)), Colon] + Tokens(members[0].value)
      + (if members[1..] == [] then [] else [Comma]) + MembersTokens(members[1..])
  }

  // --------------------------------------------------------------------- the layout

  // A new line with so many tabs
  function Line(tabs: int): string {
    "\n" + if tabs <= 0 then "" else seq(tabs, _ => '\t')
  }

  // What is written for the tokens inside the open brackets of the given kinds, the innermost
  // being the last, and d levels above them.  Members stand on lines of their own, one tab in for
  // every open bracket; an empty object has its end on a line of its own, one tab less in.
  function Layout(ts: seq<Token>, open: seq<Kind>, d: nat): string {
    if ts == [] then ""
    else
      var depth := d + |open|;
      match ts[0]
      case Atom(t) => t + Layout(ts[1..], open, d)
      case Colon => ":\t" + Layout(ts[1..], open, d)
      case Comma =>
        (if open != [] && open[|open| - 1] == Items then ", " else "," + Line(depth)) + Layout(ts[1..], open, d)
      case Open(Items) => "[" + Layout(ts[1..], open + [Items], d)
      case Open(Members) =>
        if ts[1..] != [] && ts[1] == Close(Members) then "{" + Line(depth - 1) + "}" + Layout(ts[2..], open, d)
        else "{" + Line(depth + 1) + Layout(ts[1..], open + [Members], d)
      case Close(kind) =>
        if open == [] then "" // no bracket is open
        else
          (if kind == Items then "]" else Line(depth - 1) + "}") + Layout(ts[1..], open[..|open| - 1], d)
  }

  function Alone(t: Token): string {
    match t
    case Atom(x) => x
    case Colon => ":"
    case Comma => ","
    case Open(kind) => if kind == Items then "[" else "{"
    case Close(kind) => if kind == Items then "]" else "}"
  }

  // Without a layout the tokens stand side by side.
  function Plainly(ts: seq<Token>): string {
    if ts == [] then "" else Alone(ts[0]) + Plainly(ts[1..])
  }

  // --------------------------------------------------------------------- both agree

  lemma {:induction false} TabsAre(n: int)
    ensures "\n" + Tabs(n) == Line(n)
  {
    if n > 0 {
      TabsAre(n - 1);
      assert Tabs(n) == "\t" + Tabs(n - 1);
      assert ("\n" + Tabs(n - 1))[1..] == Tabs(n - 1) && Line(n - 1)[1..] == Tabs(n - 1);
      assert Line(n) == "\n" + ("\t" + Line(n - 1)[1..]);
    }
  }

  lemma LayoutHead(t: Token, ts: seq<Token>, open: seq<Kind>, d: nat)
    requires !t.Open? && !t.Close?
    ensures
      Layout([t] + ts, open, d) ==
      (if t.Atom? then t.text
       else if t.Colon? then ":\t"
       else if open != [] && open[|open| - 1] == Items then ", "
       else "," + Line(d + |open|))
      + Layout(ts, open, d)
  {
    assert ([t] + ts)[1..] == ts;
  }

  lemma LayoutClose(kind: Kind, ts: seq<Token>, open: seq<Kind>, d: nat)
    ensures
      Layout([Close(kind)] + ts, open + [kind], d) ==
      (if kind == Items then "]" else Line(d + |open|) + "}") + Layout(ts, open, d)
  {
    assert ([Close(kind)] + ts)[1..] == ts && (open + [kind])[..|open|] == open;
  }

  lemma LayoutOpen(kind: Kind, ts: seq<Token>, open: seq<Kind>, d: nat)
    requires kind == Members ==> ts == [] || ts[0] != Close(Members)
    ensures
      Layout([Open(kind)] + ts, open, d) ==
      (if kind == Items then "[" else "{" + Line(d + |open| + 1)) + Layout(ts, open + [kind], d)
  {
    assert ([Open(kind)] + ts)[1..] == ts;
  }

  lemma LayoutEmpty(ts: seq<Token>, open: seq<Kind>, d: nat)
    ensures
      Layout([Open(Members), Close(Members)] + ts, open, d) == "{" + Line(d + |open| - 1) + "}" + Layout(ts, open, d)
  {
    var all := [Open(Members), Close(Members)] + ts;
    assert all[1..] == [Close(Members)] + ts && all[2..] == ts;
  }

  lemma {:induction false} ValueLaid(v: Json, rest: seq<Token>, open: seq<Kind>, d: nat)
    requires Plain(v)
    ensures Layout(Tokens(v) + rest, open, d) == Text(v, d + |open|, true) + Layout(rest, open, d)
    decreases v, 1
  {
    hide Layout, Line, Tabs, Quote, IntText;
    match v
    case Array(items) =>
      ArrayLaid(items, rest, open, d);
    case Object(members) =>
      ObjectLaid(members, rest, open, d);
    case Null => LayoutHead(Atom("null"), rest, open, d);
    case False => LayoutHead(Atom("false"), rest, open, d);
    case True => LayoutHead(Atom("true"), rest, open, d);
    case Number(x) => LayoutHead(Atom(IntText(x.Floor)), rest, open, d);
    case String(s) => LayoutHead(Atom(Quote(s)), rest, open, d);
  }

  lemma {:induction false} ArrayLaid(items: seq<Json>, rest: seq<Token>, open: seq<Kind>, d: nat)
    requires PlainItems(items)
    ensures Layout(Tokens(Array(items)) + rest, open, d) == Text(Array(items), d + |open|, true) + Layout(rest, open, d)
    decreases items, 2
  {
    hide Layout, Line, Tabs, ItemsText, ItemsTokens;
    var ts := ItemsTokens(items) + ([Close(Items)] + rest);
    assert Tokens(Array(items)) + rest == [Open(Items)] + ts;
    LayoutOpen(Items, ts, open, d);
    ItemsLaid(items, [Close(Items)] + rest, open + [Items], d);
    LayoutClose(Items, rest, open, d);
    assert Text(Array(items), d + |open|, true) == "[" + ItemsText(items, d + |open| + 1, true) + "]";
  }

  lemma {:induction false} ItemsLaid(items: seq<Json>, rest: seq<Token>, open: seq<Kind>, d: nat)
    requires PlainItems(items) && open != [] && open[|open| - 1] == Items
    ensures Layout(ItemsTokens(items) + rest, open, d) == ItemsText(items, d + |open|, true) + Layout(rest, open, d)
    decreases items, 0
  {
    hide Layout, Line, Tabs, Text, Tokens, ItemsTokens, ItemsText;
    ItemsParts(items, rest, d + |open|);
    if items != [] {
      var v, more := items[0], items[1..];
      var tail := ItemsTokens(more) + rest;
      var ts := (if more == [] then [] else [Token.Comma]) + tail;
      ValueLaid(v, ts, open, d);
      if more == [] {
        assert ts == tail;
      } else {
        LayoutHead(Token.Comma, tail, open, d);
      }
      ItemsLaid(more, rest, open, d);
      var comma := if more == [] then "" else ", ";
      var text, texts, end := Text(v, d + |open|, true), ItemsText(more, d + |open|, true), Layout(rest, open, d);
      if more == [] {
        Nothing(texts + end);
      }
      FourTexts(text, comma, texts, end);
    }
  }

  lemma FourTexts(text: string, comma: string, texts: string, end: string)
    ensures text + (comma + (texts + end)) == text + comma + texts + end
  {
  }

  lemma ItemsParts(items: seq<Json>, rest: seq<Token>, depth: nat)
    requires PlainItems(items)
    ensures items == [] ==> ItemsTokens(items) + rest == rest && ItemsText(items, depth, true) == ""
    ensures items != [] ==>
      var more := items[1..];
      && ItemsTokens(items) + rest ==
           Tokens(items[0]) + ((if more == [] then [] else [Token.Comma]) + (ItemsTokens(more) + rest))
      && ItemsText(items, depth, true) ==
           Text(items[0], depth, true) + (if more == [] then "" else ", ") + ItemsText(more, depth, true)
  {
    hide Tokens, Text;
    assert |items| == 1 <==> items != [] && items[1..] == [];
  }

  // The members without the tabs before the first and the newline behind the last
  function Body(members: seq<Member>, depth: nat): string
    requires PlainMembers(members) && members != []
    decreases members
  {
    Quote(members[0].name) + ":\t" + Text(members[0].value, depth, true)
    + if members[1..] == [] then "" else "," + Line(depth) + Body(members[1..], depth)
  }

  lemma {:induction false} BodyIs(members: seq<Member>, depth: nat, close: string)
    requires PlainMembers(members) && members != []
    ensures "\n" + MembersText(members, depth, true) + close == Line(depth) + Body(members, depth) + ("\n" + close)
    decreases members
  {
    hide Text, Line, Tabs, Quote;
    TabsAre(depth);
    var m, more := members[0], members[1..];
    var key, text := Quote(m.name), Text(m.value, depth, true);
    if more == [] {
      assert MembersText(members, depth, true) == (Tabs(depth) + key + ":\t") + text + "\n" + "";
      LastLine(Tabs(depth), key, text, close);
    } else {
      BodyIs(more, depth, close);
      assert MembersText(members, depth, true) ==
             ((Tabs(depth) + key + ":\t") + text) + ("," + "\n") + MembersText(more, depth, true);
      OneLine(Tabs(depth), key, text, MembersText(more, depth, true), close, Line(depth), Body(more, depth));
    }
  }

  lemma LastLine(tabs: string, key: string, text: string, close: string)
    ensures
      "\n" + ((tabs + key + ":\t") + text + "\n" + "") + close ==
      ("\n" + tabs) + (key + ":\t" + text + "") + ("\n" + close)
  {
  }

  lemma OneLine(tabs: string, key: string, text: string, more: string, close: string, line: string, body: string)
    requires "\n" + more + close == line + body + ("\n" + close)
    ensures
      "\n" + (((tabs + key + ":\t") + text) + ("," + "\n") + more) + close ==
      ("\n" + tabs) + (key + ":\t" + text + ("," + line + body)) + ("\n" + close)
  {
    var front := "\n" + tabs + key + ":\t" + text + ",";
    assert "\n" + (((tabs + key + ":\t") + text) + ("," + "\n") + more) + close == front + ("\n" + more + close);
    assert ("\n" + tabs) + (key + ":\t" + text + ("," + line + body)) + ("\n" + close) == front + (line + body + ("\n" + close));
  }

  lemma {:induction false} BodyLaid(members: seq<Member>, rest: seq<Token>, open: seq<Kind>, d: nat)
    requires PlainMembers(members) && members != [] && open != [] && open[|open| - 1] == Members
    ensures Layout(MembersTokens(members) + rest, open, d) == Body(members, d + |open|) + Layout(rest, open, d)
    decreases members, 0
  {
    hide Layout, Line, Tabs, Text, Tokens, Quote, MembersTokens, Body;
    var m, more := members[0], members[1..];
    var tail := MembersTokens(more) + rest;
    var ts := (if more == [] then [] else [Token.Comma]) + tail;
    var key, text := Quote(m.name), Text(m.value, d + |open|, true);
    BodyTokens(members, rest);
    BodyText(members, d + |open|);
    LayoutHead(Atom(key), [Colon] + (Tokens(m.value) + ts), open, d);
    LayoutHead(Colon, Tokens(m.value) + ts, open, d);
    ValueLaid(m.value, ts, open, d);
    if more == [] {
      assert ts == rest by { NoMembers(); }
    } else {
      LayoutHead(Token.Comma, tail, open, d);
      BodyLaid(more, rest, open, d);
      Associate("," + Line(d + |open|), Body(more, d + |open|), Layout(rest, open, d));
    }
    FourParts(key, text, if more == [] then "" else "," + Line(d + |open|) + Body(more, d + |open|), Layout(rest, open, d));
  }

  lemma FourParts(key: string, text: string, more: string, rest: string)
    ensures key + (":\t" + (text + (more + rest))) == key + ":\t" + text + more + rest
  {
  }

  lemma BodyTokens(members: seq<Member>, rest: seq<Token>)
    requires PlainMembers(members) && members != []
    ensures
      var comma: seq<Token> := if members[1..] == [] then [] else [Token.Comma];
      MembersTokens(members) + rest ==
      [Atom(Quote(members[0].name))]
      + ([Colon] + (Tokens(members[0].value) + (comma + (MembersTokens(members[1..]) + rest))))
  {
    hide Tokens, Quote;
    var comma: seq<Token> := if members[1..] == [] then [] else [Token.Comma];
    var v, key := Tokens(members[0].value), Atom(Quote(members[0].name));
    var more := MembersTokens(members[1..]);
    assert MembersTokens(members) == [key, Colon] + v + comma + more;
    hide MembersTokens;
    FiveTokens(key, v, comma, more, rest);
  }

  lemma FiveTokens(key: Token, v: seq<Token>, comma: seq<Token>, more: seq<Token>, rest: seq<Token>)
    ensures ([key, Colon] + v + comma + more) + rest == [key] + ([Colon] + (v + (comma + (more + rest))))
  {
  }

  lemma BodyText(members: seq<Member>, depth: nat)
    requires PlainMembers(members) && members != []
    ensures
      Body(members, depth) ==
      Quote(members[0].name) + ":\t" + Text(members[0].value, depth, true)
      + (if members[1..] == [] then "" else "," + Line(depth) + Body(members[1..], depth))
  {
    hide Text, Quote, Line;
  }

  lemma {:induction false} ObjectLaid(members: seq<Member>, rest: seq<Token>, open: seq<Kind>, d: nat)
    requires PlainMembers(members)
    ensures Layout(Tokens(Object(members)) + rest, open, d) == Text(Object(members), d + |open|, true) + Layout(rest, open, d)
    decreases members, 2
  {
    hide Layout, Line, Tabs, MembersText, MembersTokens, Body, Text, Tokens;
    var depth := d + |open|;
    var v := Object(members);
    ObjectTextIs(members, depth);
    ObjectTokens(members, rest);
    if members == [] {
      LayoutEmpty(rest, open, d);
    } else {
      var ts := MembersTokens(members) + ([Close(Members)] + rest);
      FirstToken(members);
      LayoutOpen(Members, ts, open, d);
      BodyLaid(members, [Close(Members)] + rest, open + [Members], d);
      LayoutClose(Members, rest, open, d);
    }
  }

  lemma ObjectTokens(members: seq<Member>, rest: seq<Token>)
    requires PlainMembers(members)
    ensures members == [] ==> Tokens(Object(members)) + rest == [Open(Members), Close(Members)] + rest
    ensures Tokens(Object(members)) + rest == [Open(Members)] + (MembersTokens(members) + ([Close(Members)] + rest))
  {
    NoMembers();
    hide MembersTokens;
  }

  lemma ObjectTextIs(members: seq<Member>, depth: nat)
    requires PlainMembers(members)
    ensures members == [] ==> Text(Object(members), depth, true) == "{" + Line(depth - 1) + "}"
    ensures members != [] ==>
      Text(Object(members), depth, true) == "{" + Line(depth + 1) + Body(members, depth + 1) + (Line(depth) + "}")
  {
    hide Line, Tabs, MembersText, Body;
    TabsAre(depth - 1);
    TabsAre(depth);
    if members == [] {
      assert Text(Object(members), depth, true) == "{" + ("\n" + Tabs(depth - 1)) + "}";
    } else {
      var inner, close := MembersText(members, depth + 1, true), Tabs(depth) + "}";
      BodyIs(members, depth + 1, close);
      assert Text(Object(members), depth, true) == "{" + "\n" + inner + Tabs(depth) + "}";
      assert "{" + "\n" + inner + Tabs(depth) + "}" == "{" + ("\n" + inner + close);
      assert "\n" + close == Line(depth) + "}";
    }
  }

  lemma NoMembers()
    ensures MembersTokens([]) == []
  {
  }

  lemma FirstToken(members: seq<Member>)
    requires PlainMembers(members) && members != []
    ensures MembersTokens(members) != [] && MembersTokens(members)[0].Atom?
  {
    hide Tokens;
  }

  // The formatted text is the layout of the tokens.
  lemma FormattedIsLaidOut(v: Json, depth: nat)
    requires Plain(v)
    ensures Text(v, depth, true) == Layout(Tokens(v), [], depth)
  {
    ValueLaid(v, [], [], depth);
    assert Tokens(v) + [] == Tokens(v);
  }

  // --------------------------------------------------------------------- without a layout

  lemma {:induction false} PlainlyConcat(ts: seq<Token>, us: seq<Token>)
    ensures Plainly(ts + us) == Plainly(ts) + Plainly(us)
  {
    hide Alone;
    if ts == [] {
      assert ts + us == us;
    } else {
      PlainlyConcat(ts[1..], us);
      assert (ts + us)[1..] == ts[1..] + us;
      Associate(Alone(ts[0]), Plainly(ts[1..]), Plainly(us));
    }
  }

  lemma PlainlyOne(t: Token)
    ensures Plainly([t]) == Alone(t)
  {
  }

  // The unformatted text is the tokens side by side.
  lemma {:induction false} UnformattedIsPlain(v: Json, depth: nat)
    requires Plain(v)
    ensures Text(v, depth, false) == Plainly(Tokens(v))
    decreases v, 1
  {
    hide Plainly, Quote, IntText, ItemsText, MembersText, ItemsTokens, MembersTokens;
    match v
    case Array(items) =>
      PlainlyConcat([Open(Items)] + ItemsTokens(items), [Close(Items)]);
      PlainlyConcat([Open(Items)], ItemsTokens(items));
      PlainlyOne(Open(Items));
      PlainlyOne(Close(Items));
      ItemsPlain(items, depth + 1);
    case Object(members) =>
      PlainlyConcat([Open(Members)] + MembersTokens(members), [Close(Members)]);
      PlainlyConcat([Open(Members)], MembersTokens(members));
      PlainlyOne(Open(Members));
      PlainlyOne(Close(Members));
      MembersPlain(members, depth + 1);
      NoText(depth);
    case Null => PlainlyOne(Atom("null"));
    case False => PlainlyOne(Atom("false"));
    case True => PlainlyOne(Atom("true"));
    case Number(x) => PlainlyOne(Atom(IntText(x.Floor)));
    case String(s) => PlainlyOne(Atom(Quote(s)));
  }

  lemma NoText(depth: nat)
    ensures MembersText([], depth + 1, false) == "" && Plainly(MembersTokens([])) == ""
  {
  }

  lemma {:induction false} ItemsPlain(items: seq<Json>, depth: nat)
    requires PlainItems(items)
    ensures ItemsText(items, depth, false) == Plainly(ItemsTokens(items))
    decreases items, 0
  {
    if items != [] {
      var v, more := items[0], items[1..];
      var comma: seq<Token> := if more == [] then [] else [Token.Comma];
      UnformattedIsPlain(v, depth);
      ItemsPlain(more, depth);
      PlainlyConcat(Tokens(v) + comma, ItemsTokens(more));
      PlainlyConcat(Tokens(v), comma);
      PlainlyOne(Token.Comma);
      assert |items| == 1 <==> more == [];
      hide Tokens, Text;
    }
  }

  lemma {:induction false} MembersPlain(members: seq<Member>, depth: nat)
    requires PlainMembers(members)
    ensures MembersText(members, depth, false) == Plainly(MembersTokens(members))
    decreases members, 0
  {
    if members != [] {
      hide Tokens, Text, Quote, Plainly;
      var m, more := members[0], members[1..];
      var comma: seq<Token> := if more == [] then [] else [Token.Comma];
      var key: seq<Token> := [Atom(Quote(m.name)), Colon];
      UnformattedIsPlain(m.value, depth);
      MembersPlain(more, depth);
      PlainlyConcat(key + Tokens(m.value) + comma, MembersTokens(more));
      PlainlyConcat(key + Tokens(m.value), comma);
      PlainlyConcat(key, Tokens(m.value));
      KeyPlain(m.name, depth);
      CommaPlain(comma, more == []);
      assert |members| == 1 <==> more == [];
    }
  }

  lemma KeyPlain(name: string, depth: nat)
    ensures Plainly([Atom(Quote(name)), Colon]) == KeyText(name, depth, false)
  {
    hide Quote;
    assert [Atom(Quote(name)), Colon] == [Atom(Quote(name))] + [Colon];
    PlainlyConcat([Atom(Quote(name))], [Colon]);
    PlainlyOne(Atom(Quote(name)));
    PlainlyOne(Colon);
    assert "" + Quote(name) == Quote(name);
    hide Plainly;
  }

  lemma CommaPlain(comma: seq<Token>, last: bool)
    requires comma == if last then [] else [Token.Comma]
    ensures Plainly(comma) == MemberEnd(last, false)
  {
  }

  // --------------------------------------------------------------------- strings and numbers

  // The characters of the table of section 7 of RFC 8259 are written as a backslash and their
  // letter, but for the slash; other control characters as \u00 and two digits; and all others
  // as they are.
  lemma EscapeTable(c: char)
    ensures forall i :: 0 <= i < |L.LETTERS| && i != 2 && c as int == L.CODES[i] ==> Escape(c) == ['\\', L.LETTERS[i]]
    ensures c < ' ' && c as int !in L.CODES ==>
      |Escape(c)| == 6 && Escape(c)[..4] == "\\u00" && G.Hex4(Escape(c), 2) == c as int
    ensures c >= ' ' && c != '"' && c != '\\' ==> Escape(c) == [c]
  {
    assert L.LETTERS[0] == '"' && L.LETTERS[1] == '\\' && L.LETTERS[3] == 'b' && L.LETTERS[4] == 'f';
    assert L.LETTERS[5] == 'n' && L.LETTERS[6] == 'r' && L.LETTERS[7] == 't';
    if c < ' ' && c as int !in L.CODES {
      assert L.CODES[3] in L.CODES && L.CODES[4] in L.CODES && L.CODES[5] in L.CODES;
      assert L.CODES[6] in L.CODES && L.CODES[7] in L.CODES;
      ControlEscape(c);
    }
  }

  lemma ControlEscape(c: char)
    requires c < ' ' && !HasShortForm(c)
    ensures |Escape(c)| == 6 && Escape(c)[..4] == "\\u00" && G.Hex4(Escape(c), 2) == c as int
  {
    var e := Escape(c);
    assert e == "\\u00" + [Digit(c as int / 16), Digit(c as int % 16)];
    assert e[2] == '0' && e[3] == '0' && e[4] == Digit(c as int / 16) && e[5] == Digit(c as int % 16);
    DigitValues(c as int / 16);
    DigitValues(c as int % 16);
  }

  lemma DigitValues(d: int)
    requires 0 <= d < 16
    ensures G.IsHex(Digit(d)) && G.HexDigit(Digit(d)) == d
  {
    L.HexDigits(Digit(d));
    assert Digit(d) == L.LOWER[d];
  }

  // A number is written with no zero at its front but for the number zero.
  lemma {:induction false} DecimalFirst(n: nat)
    ensures |Decimal(n)| > 0 && (Decimal(n)[0] == '0' <==> n == 0) && (n == 0 ==> |Decimal(n)| == 1)
  {
    if n >= 10 {
      DecimalFirst(n / 10);
    }
  }
}
