// cJSON_Minify, in place (3rdParty/libcjson/cJSON.c:579-594), and how it relates to the printer.
module JsonMinify {
  import opened CText
  import opened Json
  import opened JsonText
  import JsonRoundTrip

  // Cut: a literal or a comment without its end, on which the code leaves the text.
  datatype Minified = Some(text: string) | Cut

  predicate IsBlank(c: char) {
    c == ' ' || c == '\t' || c == '\r' || c == '\n'
  }

  function LineEnd(s: string, p: nat): (q: nat)
    requires p <= |s|
    ensures p <= q <= |s| && (q == |s| || s[q] == '\n')
    decreases |s| - p
  {
    if p < |s| && s[p] != '\n' then LineEnd(s, p + 1) else p
  }

  function CommentEnd(s: string, p: nat): (q: nat)
    requires p <= |s|
    ensures p <= q <= |s|
    decreases |s| - p
  {
    if p == |s| || (s[p] == '*' && At(s, p + 1) == '/') then p else CommentEnd(s, p + 1)
  }

  // Behind the closing quote of a literal whose inside is read from p on; behind the text if
  // there is none.
  function LiteralEnd(s: string, p: nat): (q: nat)
    requires p <= |s|
    ensures p < q
    decreases |s| - p
  {
    if p == |s| then p + 1
    else if s[p] == '"' then p + 1
    else if s[p] == '\\' then
      if p + 1 < |s| then LiteralEnd(s, p + 2) else p + 2
    else LiteralEnd(s, p + 1)
  }

  // What is left of the text from p on.
  function Minify(s: string, p: nat): Minified
    decreases |s| - p
  {
    if p > |s| then Cut
    else if p == |s| then Some([])
    else if IsBlank(s[p]) then Minify(s, p + 1)
    else if s[p] == '/' && At(s, p + 1) == '/' then Minify(s, LineEnd(s, p))
    else if s[p] == '/' && At(s, p + 1) == '*' then Minify(s, CommentEnd(s, p) + 2)
    else
      var q := if s[p] == '"' then LiteralEnd(s, p + 1) else p + 1;
      if q > |s| then Cut
      else
        match Minify(s, q)
        case Some(rest) => Some(s[p..q] + rest)
        case Cut => Cut
  }

  // -------------------------------------------------------------------- in place

  // The part that is still to be read, while the part before it is overwritten.
  ghost predicate Unread(a: array<char>, s: string, p: nat)
    reads a
  {
    p <= |s| < a.Length && (forall k :: p <= k < |s| ==> a[k] == s[k]) && a[|s|] == NUL
  }

  // What was written and what is still to come; nothing is written ahead of the reader.
  ghost predicate Progress(a: array<char>, s: string, into: nat, json: nat)
    reads a
  {
    && into <= json <= |s| && Unread(a, s, json)
    && Minify(s, json).Some? && Minify(s, 0).Some?
    && a[..into] + Minify(s, json).text == Minify(s, 0).text
  }

  // One character moves to the front, and both pointers go on.
  method Move(a: array<char>, ghost s: string, into: nat, json: nat) returns (into': nat, json': nat)
    requires into <= json < |s| && Unread(a, s, json)
    modifies a
    ensures into' == into + 1 && json' == json + 1 && Unread(a, s, json')
    ensures a[..into'] == old(a[..into]) + [s[json]]
    ensures forall k :: |s| <= k < a.Length ==> a[k] == old(a[k])
  {
    a[into] := a[json];
    into', json' := into + 1, json + 1;
  }

  // One character inside a literal, with the backslash before it.
  method MoveEscaped(a: array<char>, ghost s: string, into: nat, json: nat) returns (into': nat, json': nat)
    requires into <= json < |s| && Unread(a, s, json)
    requires s[json] == '\\' ==> json + 1 < |s|
    modifies a
    ensures json' == (if s[json] == '\\' then json + 2 else json + 1)
    ensures into' <= json' <= |s| && Unread(a, s, json')
    ensures a[..into'] == old(a[..into]) + s[json..json']
    ensures forall k :: |s| <= k < a.Length ==> a[k] == old(a[k])
  {
    into', json' := into, json;
    if a[json'] == '\\' {
      into', json' := Move(a, s, into', json');
    }
    into', json' := Move(a, s, into', json');
    if s[json] == '\\' {
      assert s[json..json'] == [s[json]] + [s[json + 1]];
    }
  }

  // String literals are copied to their closing quote.
  method MoveLiteral(a: array<char>, ghost s: string, into: nat, json: nat) returns (into': nat, json': nat)
    requires NulFree(s) && into <= json < |s| && s[json] == '"' && Unread(a, s, json)
    requires LiteralEnd(s, json + 1) <= |s|
    modifies a
    ensures json' == LiteralEnd(s, json + 1) && into' <= json' && Unread(a, s, json')
    ensures a[..into'] == old(a[..into]) + s[json..json']
    ensures forall k :: |s| <= k < a.Length ==> a[k] == old(a[k])
  {
    hide LiteralEnd, Unread;
    UnreadAt(a, s, json);
    ghost var before := a[..into];
    into', json' := Move(a, s, into, json);
    UnreadAt(a, s, json');
    while a[json'] != NUL && a[json'] != '"'
      invariant 0 <= into' <= json' < |s| && json < json' && Unread(a, s, json') && |s| < a.Length
      invariant LiteralEnd(s, json') == LiteralEnd(s, json + 1)
      invariant a[..into'] == before + s[json..json']
      invariant forall k :: |s| <= k < a.Length ==> a[k] == old(a[k])
      decreases |s| - json'
    {
      UnreadAt(a, s, json');
      ghost var at := json';
      LiteralNext(s, at);
      into', json' := MoveEscaped(a, s, into', json');
      Joined(before, s, json, at, json');
    }
    UnreadAt(a, s, json');
    ghost var at := json';
    LiteralDone(s, at);
    into', json' := Move(a, s, into', json');
    Joined(before, s, json, at, json');
  }

  lemma UnreadAt(a: array<char>, s: string, p: nat)
    requires Unread(a, s, p)
    ensures p <= |s| < a.Length && (p < |s| ==> a[p] == s[p])
  {
  }

  lemma LiteralDone(s: string, p: nat)
    requires p < |s| && s[p] == '"'
    ensures LiteralEnd(s, p) == p + 1
  {
  }

  lemma LiteralNext(s: string, p: nat)
    requires p < |s| && s[p] != '"' && LiteralEnd(s, p) <= |s|
    ensures s[p] == '\\' ==> p + 2 < |s| && LiteralEnd(s, p) == LiteralEnd(s, p + 2)
    ensures s[p] != '\\' ==> p + 1 < |s| && LiteralEnd(s, p) == LiteralEnd(s, p + 1)
  {
  }

  // A comment to the end of its line is passed over.
  method SkipLine(a: array<char>, ghost s: string, p: nat) returns (json: nat)
    requires NulFree(s) && Unread(a, s, p)
    ensures json == LineEnd(s, p)
  {
    json := p;
    while a[json] != NUL && a[json] != '\n'
      invariant p <= json <= |s| && LineEnd(s, json) == LineEnd(s, p)
      decreases |s| - json
    {
      json := json + 1;
    }
  }

  // A comment is passed over up to the mark that ends it.
  method SkipComment(a: array<char>, ghost s: string, p: nat) returns (json: nat)
    requires NulFree(s) && Unread(a, s, p)
    ensures json == CommentEnd(s, p)
  {
    json := p;
    while a[json] != NUL && !(a[json] == '*' && a[json + 1] == '/')
      invariant p <= json <= |s| && CommentEnd(s, json) == CommentEnd(s, p)
      decreases |s| - json
    {
      json := json + 1;
    }
  }

  // What one round of the loop has to do.
  lemma MinifyNext(s: string, p: nat, written: string)
    requires p < |s| && Minify(s, p).Some?
    ensures IsBlank(s[p]) ==> Minify(s, p + 1) == Minify(s, p)
    ensures s[p] == '/' && At(s, p + 1) == '/' ==> Minify(s, LineEnd(s, p)) == Minify(s, p)
    ensures s[p] == '/' && At(s, p + 1) == '*' ==>
      CommentEnd(s, p) + 2 <= |s| && Minify(s, CommentEnd(s, p) + 2) == Minify(s, p)
    ensures !IsBlank(s[p]) && !(s[p] == '/' && At(s, p + 1) in "/*") ==>
      var q := if s[p] == '"' then LiteralEnd(s, p + 1) else p + 1;
      && q <= |s| && Minify(s, q).Some?
      && written + Minify(s, p).text == (written + s[p..q]) + Minify(s, q).text
  {
    hide LiteralEnd;
  }

  // cJSON_Minify
  method MinifyInPlace(a: array<char>, ghost s: string)
    requires Holds(a, s) && NulFree(s)
    requires Minify(s, 0).Some?
    modifies a
    ensures Holds(a, Minify(s, 0).text)
    ensures |Minify(s, 0).text| <= |s|
    ensures forall k :: |s| < k < a.Length ==> a[k] == old(a[k])
  {
    hide Minify, LiteralEnd, LineEnd, CommentEnd;
    var into, json := 0, 0;
    assert a[..0] + Minify(s, 0).text == Minify(s, 0).text;
    while a[json] != NUL
      invariant 0 <= into <= json && Progress(a, s, into, json)
      invariant forall k :: |s| <= k < a.Length ==> a[k] == old(a[k])
      decreases |s| - json
    {
      MinifyNext(s, json, a[..into]);
      if IsBlank(a[json]) {
        json := json + 1;
      } else if a[json] == '/' && a[json + 1] == '/' {
        ghost var p := json;
        json := SkipLine(a, s, json);
        LineEndAdvances(s, p);
      } else if a[json] == '/' && a[json + 1] == '*' {
        json := SkipComment(a, s, json);
        json := json + 2;
      } else if a[json] == '"' {
        into, json := MoveLiteral(a, s, into, json);
      } else {
        assert s[json..json + 1] == [s[json]];
        into, json := Move(a, s, into, json);
      }
    }
    NothingLeft(s);
    assert a[..into] + [] == a[..into];
    a[into] := NUL;
    HoldsFrom(a, Minify(s, 0).text);
  }

  lemma NothingLeft(s: string)
    ensures Minify(s, |s|) == Some([])
  {
  }

  lemma LineEndAdvances(s: string, p: nat)
    requires p < |s| && s[p] == '/'
    ensures LineEnd(s, p) > p
  {
  }

  // -------------------------------------------------------------------- printed texts

  function Prepend(t: string, m: Minified): Minified {
    if m.Some? then Some(t + m.text) else Cut
  }

  lemma PrependTwice(t: string, u: string, m: Minified)
    ensures Prepend(t, Prepend(u, m)) == Prepend(t + u, m)
    ensures Prepend("", m) == m
  {
    if m.Some? {
      assert t + (u + m.text) == (t + u) + m.text;
    }
  }

  // The text t at p comes out as u, whatever follows.
  predicate Becomes(s: string, p: nat, t: string, u: string) {
    Occurs(s, p, t) && Minify(s, p) == Prepend(u, Minify(s, p + |t|))
  }

  lemma BecomesConcat(s: string, p: nat, t: string, u: string, t': string, u': string)
    requires Becomes(s, p, t, u) && Becomes(s, p + |t|, t', u')
    ensures Becomes(s, p, t + t', u + u')
  {
    hide Minify, Occurs;
    OccursConcat(s, p, t, t');
    PrependTwice(u, u', Minify(s, p + |t| + |t'|));
  }

  predicate IsPlain(c: char) {
    !IsBlank(c) && c != '/' && c != '"'
  }

  // Characters without a meaning of their own are kept.
  lemma {:induction false} KeptAsIs(s: string, p: nat, t: string)
    requires Occurs(s, p, t)
    requires forall k :: 0 <= k < |t| ==> IsPlain(t[k])
    ensures Becomes(s, p, t, t)
    decreases |t|
  {
    if t == [] {
      PrependTwice("", "", Minify(s, p));
    } else {
      assert t == [t[0]] + t[1..];
      OccursConcat(s, p, [t[0]], t[1..]);
      OccursChar(s, p, t[0]);
      KeptAsIs(s, p + 1, t[1..]);
      assert s[p..p + 1] == [t[0]];
      assert Becomes(s, p, [t[0]], [t[0]]);
      BecomesConcat(s, p, [t[0]], [t[0]], t[1..], t[1..]);
    }
  }

  // Blanks are dropped.
  lemma {:induction false} BlanksDropped(s: string, p: nat, t: string)
    requires Occurs(s, p, t)
    requires forall k :: 0 <= k < |t| ==> IsBlank(t[k])
    ensures Becomes(s, p, t, "")
    decreases |t|
  {
    if t == [] {
      PrependTwice("", "", Minify(s, p));
    } else {
      assert t == [t[0]] + t[1..];
      OccursConcat(s, p, [t[0]], t[1..]);
      OccursChar(s, p, t[0]);
      BlanksDropped(s, p + 1, t[1..]);
      PrependTwice("", "", Minify(s, p + |t|));
    }
  }

  lemma EscapeKeepsLiteral(c: char, s: string, p: nat)
    requires c != NUL && Occurs(s, p, Escape(c))
    requires p + |Escape(c)| < |s|
    ensures |Escape(c)| > 0 && LiteralEnd(s, p) == LiteralEnd(s, p + |Escape(c)|)
  {
    JsonRoundTrip.DecodeOne(c, s, p);
    EscapeLength(c);
    hide Escape, Occurs;
    if |Escape(c)| == 6 {
      FourDigits(s, p + 2);
    }
  }

  lemma EscapeLength(c: char)
    ensures |Escape(c)| == 1 || |Escape(c)| == 2 || |Escape(c)| == 6
  {
  }

  lemma FourDigits(s: string, p: nat)
    requires p + 4 < |s| && forall k :: p <= k < p + 4 ==> s[k] != '"' && s[k] != '\\'
    ensures LiteralEnd(s, p) == LiteralEnd(s, p + 4)
  {
    assert LiteralEnd(s, p + 2) == LiteralEnd(s, p + 3);
    assert LiteralEnd(s, p + 1) == LiteralEnd(s, p + 2);
  }

  lemma {:induction false} EscapedLiteralEnd(t: string, s: string, p: nat)
    requires NulFree(t) && Occurs(s, p, EscapeAll(t) + "\"")
    ensures LiteralEnd(s, p) == p + |EscapeAll(t)| + 1
  {
    hide Occurs, Escape;
    if t == [] {
      assert EscapeAll(t) + "\"" == "\"";
      OccursChar(s, p, '"');
    } else {
      var rest := EscapeAll(t[1..]) + "\"";
      assert EscapeAll(t) + "\"" == Escape(t[0]) + rest;
      OccursConcat(s, p, Escape(t[0]), rest);
      OccursFirst(s, p + |Escape(t[0])|, rest);
      EscapeKeepsLiteral(t[0], s, p);
      EscapedLiteralEnd(t[1..], s, p + |Escape(t[0])|);
    }
  }

  // A printed string is copied.
  lemma QuoteKept(t: string, s: string, p: nat)
    requires NulFree(t) && Occurs(s, p, Quote(t))
    ensures Becomes(s, p, Quote(t), Quote(t))
  {
    hide LiteralEnd, EscapeAll;
    assert Quote(t) == "\"" + (EscapeAll(t) + "\"");
    OccursConcat(s, p, "\"", EscapeAll(t) + "\"");
    OccursChar(s, p, '"');
    EscapedLiteralEnd(t, s, p + 1);
    assert s[p..p + |Quote(t)|] == Quote(t);
  }

  lemma {:induction false} TabsAreBlank(n: int)
    ensures forall k :: 0 <= k < |Tabs(n)| ==> IsBlank(Tabs(n)[k])
  {
    if n > 0 {
      TabsAreBlank(n - 1);
    }
  }

  lemma {:induction false} DecimalIsPlain(n: nat)
    ensures forall k :: 0 <= k < |Decimal(n)| ==> IsPlain(Decimal(n)[k])
  {
    if n >= 10 {
      DecimalIsPlain(n / 10);
    }
  }

  // Layout that is dropped, or absent when not formatting.
  lemma LayoutDropped(s: string, p: nat, fmt: bool, t: string)
    requires Occurs(s, p, if fmt then t else "")
    requires forall k :: 0 <= k < |t| ==> IsBlank(t[k])
    ensures Becomes(s, p, if fmt then t else "", "")
  {
    BlanksDropped(s, p, if fmt then t else "");
  }

  lemma {:induction false} ValueMinified(v: Json, depth: nat, fmt: bool, s: string, p: nat)
    requires Plain(v) && Occurs(s, p, Text(v, depth, fmt))
    ensures Becomes(s, p, Text(v, depth, fmt), Text(v, depth, false))
    decreases v, 1
  {
    hide Becomes, Occurs;
    match v
    case Null => KeptAsIs(s, p, "null");
    case False => KeptAsIs(s, p, "false");
    case True => KeptAsIs(s, p, "true");
    case Number(d) =>
      DecimalIsPlain(if d.Floor < 0 then -d.Floor else d.Floor);
      KeptAsIs(s, p, IntText(d.Floor));
    case String(t) => QuoteKept(t, s, p);
    case Array(items) => ArrayMinified(v, depth, fmt, s, p);
    case Object(members) => ObjectMinified(v, depth, fmt, s, p);
  }

  lemma {:induction false} ArrayMinified(v: Json, depth: nat, fmt: bool, s: string, p: nat)
    requires Plain(v) && v.Array? && Occurs(s, p, Text(v, depth, fmt))
    ensures Becomes(s, p, Text(v, depth, fmt), Text(v, depth, false))
    decreases v, 0
  {
    hide Becomes, Occurs, ItemsText;
    var t, u := ItemsText(v.items, depth + 1, fmt), ItemsText(v.items, depth + 1, false);
    OccursConcat(s, p, "[" + t, "]");
    OccursConcat(s, p, "[", t);
    KeptAsIs(s, p, "[");
    ItemsMinified(v.items, depth + 1, fmt, s, p + 1);
    KeptAsIs(s, p + 1 + |t|, "]");
    BecomesConcat(s, p, "[", "[", t, u);
    BecomesConcat(s, p, "[" + t, "[" + u, "]", "]");
  }

  lemma {:induction false} ItemsMinified(items: seq<Json>, depth: nat, fmt: bool, s: string, p: nat)
    requires PlainItems(items) && Occurs(s, p, ItemsText(items, depth, fmt))
    ensures Becomes(s, p, ItemsText(items, depth, fmt), ItemsText(items, depth, false))
    decreases items, 0
  {
    hide Becomes, Occurs, Text;
    if items == [] {
      KeptAsIs(s, p, "");
    } else {
      var rest := items[1..];
      var t, u := Text(items[0], depth, fmt), Text(items[0], depth, false);
      var sep, sep' := if |items| == 1 then [] else Comma(fmt), if |items| == 1 then [] else Comma(false);
      var more, more' := ItemsText(rest, depth, fmt), ItemsText(rest, depth, false);
      OccursConcat(s, p, t + sep, more);
      OccursConcat(s, p, t, sep);
      ValueMinified(items[0], depth, fmt, s, p);
      CommaMinified(|items| == 1, fmt, s, p + |t|);
      ItemsMinified(rest, depth, fmt, s, p + |t| + |sep|);
      BecomesConcat(s, p, t, u, sep, sep');
      BecomesConcat(s, p, t + sep, u + sep', more, more');
    }
  }

  lemma CommaMinified(last: bool, fmt: bool, s: string, p: nat)
    requires Occurs(s, p, if last then [] else Comma(fmt))
    ensures Becomes(s, p, if last then [] else Comma(fmt), if last then [] else Comma(false))
  {
    hide Becomes, Occurs;
    if last || !fmt {
      KeptAsIs(s, p, if last then [] else Comma(fmt));
    } else {
      assert Comma(true) == "," + " " && Comma(false) == "," + "";
      OccursConcat(s, p, ",", " ");
      KeptAsIs(s, p, ",");
      BlanksDropped(s, p + 1, " ");
      BecomesConcat(s, p, ",", ",", " ", "");
    }
  }

  lemma {:induction false} ObjectMinified(v: Json, depth: nat, fmt: bool, s: string, p: nat)
    requires Plain(v) && v.Object? && Occurs(s, p, Text(v, depth, fmt))
    ensures Becomes(s, p, Text(v, depth, fmt), Text(v, depth, false))
    decreases v, 0
  {
    hide Becomes, Occurs, MembersText, Tabs;
    var none := v.members == [];
    var open := "\n";
    var t := if none then "" else MembersText(v.members, depth + 1, fmt);
    var u := if none then "" else MembersText(v.members, depth + 1, false);
    var close := Tabs(if none then depth - 1 else depth);
    var open', close' := if fmt then open else "", if fmt then close else "";
    assert Text(v, depth, fmt) == ((("{" + open') + t) + close') + "}";
    assert Text(v, depth, false) == ((("{" + "") + u) + "") + "}";
    OccursConcat(s, p, (("{" + open') + t) + close', "}");
    OccursConcat(s, p, ("{" + open') + t, close');
    OccursConcat(s, p, "{" + open', t);
    OccursConcat(s, p, "{", open');
    KeptAsIs(s, p, "{");
    LayoutDropped(s, p + 1, fmt, open);
    BecomesConcat(s, p, "{", "{", open', "");
    var q := p + 1 + |open'|;
    if none {
      KeptAsIs(s, q, "");
    } else {
      MembersMinified(v.members, depth + 1, fmt, s, q);
    }
    BecomesConcat(s, p, "{" + open', "{" + "", t, u);
    TabsAreBlank(if none then depth - 1 else depth);
    LayoutDropped(s, q + |t|, fmt, close);
    BecomesConcat(s, p, ("{" + open') + t, ("{" + "") + u, close', "");
    KeptAsIs(s, q + |t| + |close'|, "}");
    BecomesConcat(s, p, (("{" + open') + t) + close', (("{" + "") + u) + "", "}", "}");
  }

  lemma {:induction false} MembersMinified(members: seq<Member>, depth: nat, fmt: bool, s: string, p: nat)
    requires PlainMembers(members) && Occurs(s, p, MembersText(members, depth, fmt))
    ensures Becomes(s, p, MembersText(members, depth, fmt), MembersText(members, depth, false))
    decreases members, 0
  {
    hide Becomes, Occurs, MemberText, MemberEnd;
    if members == [] {
      KeptAsIs(s, p, "");
    } else {
      var rest := members[1..];
      var t, u := MemberText(members[0], depth, fmt), MemberText(members[0], depth, false);
      var e, e' := MemberEnd(|members| == 1, fmt), MemberEnd(|members| == 1, false);
      var more, more' := MembersText(rest, depth, fmt), MembersText(rest, depth, false);
      OccursConcat(s, p, t + e, more);
      OccursConcat(s, p, t, e);
      MemberMinified(members[0], depth, fmt, s, p);
      MemberEndMinified(|members| == 1, fmt, s, p + |t|);
      MembersMinified(rest, depth, fmt, s, p + |t| + |e|);
      BecomesConcat(s, p, t, u, e, e');
      BecomesConcat(s, p, t + e, u + e', more, more');
    }
  }

  lemma MemberEndMinified(last: bool, fmt: bool, s: string, p: nat)
    requires Occurs(s, p, MemberEnd(last, fmt))
    ensures Becomes(s, p, MemberEnd(last, fmt), MemberEnd(last, false))
  {
    hide Becomes, Occurs;
    var comma, line := if last then "" else ",", if fmt then "\n" else "";
    OccursConcat(s, p, comma, line);
    KeptAsIs(s, p, comma);
    LayoutDropped(s, p + |comma|, fmt, "\n");
    BecomesConcat(s, p, comma, comma, line, "");
  }

  lemma {:induction false} MemberMinified(m: Member, depth: nat, fmt: bool, s: string, p: nat)
    requires NulFree(m.name) && Plain(m.value) && Occurs(s, p, MemberText(m, depth, fmt))
    ensures Becomes(s, p, MemberText(m, depth, fmt), MemberText(m, depth, false))
    decreases m, 2
  {
    hide Becomes, Occurs, KeyText, Text;
    var key, key' := KeyText(m.name, depth, fmt), KeyText(m.name, depth, false);
    var t, u := Text(m.value, depth, fmt), Text(m.value, depth, false);
    OccursConcat(s, p, key, t);
    KeyMinified(m.name, depth, fmt, s, p);
    ValueMinified(m.value, depth, fmt, s, p + |key|);
    BecomesConcat(s, p, key, key', t, u);
  }

  lemma KeyMinified(name: string, depth: nat, fmt: bool, s: string, p: nat)
    requires NulFree(name) && Occurs(s, p, KeyText(name, depth, fmt))
    ensures Becomes(s, p, KeyText(name, depth, fmt), KeyText(name, depth, false))
  {
    hide Becomes, Occurs, Quote, Tabs;
    var indent, tab := if fmt then Tabs(depth) else "", if fmt then "\t" else "";
    var name' := Quote(name);
    assert KeyText(name, depth, fmt) == ((indent + name') + ":") + tab;
    assert KeyText(name, depth, false) == (("" + name') + ":") + "";
    OccursConcat(s, p, (indent + name') + ":", tab);
    OccursConcat(s, p, indent + name', ":");
    OccursConcat(s, p, indent, name');
    TabsAreBlank(depth);
    LayoutDropped(s, p, fmt, Tabs(depth));
    QuoteKept(name, s, p + |indent|);
    BecomesConcat(s, p, indent, "", name', name');
    KeptAsIs(s, p + |indent| + |name'|, ":");
    BecomesConcat(s, p, indent + name', "" + name', ":", ":");
    LayoutDropped(s, p + |indent| + |name'| + 1, fmt, "\t");
    BecomesConcat(s, p, (indent + name') + ":", ("" + name') + ":", tab, "");
  }

  // Minifying what was printed in either format gives the unformatted text.
  lemma MinifyCommutesWithPrint(v: Json, depth: nat, fmt: bool)
    requires Plain(v)
    ensures Minify(Text(v, depth, fmt), 0) == Some(Text(v, depth, false))
  {
    var s := Text(v, depth, fmt);
    ValueMinified(v, depth, fmt, s, 0);
    NothingLeft(s);
    assert Text(v, depth, false) + [] == Text(v, depth, false);
  }
}
