// The parser accepts nothing but the texts of the grammar
// (3rdParty/libcjson/cJSON.c:92-107, 153-210, 259-298, 318-345, 404-437).
module JsonAccepted {
  import opened CText
  import opened Json
  import opened JsonGrammar
  import opened JsonLiterals
  import opened JsonNumbers
  import opened JsonSyntax
  import P = JsonMinifyParse
  import M = JsonMinify

  // The literals that are met from p on are closed and have complete escapes.
  predicate Literals(s: string, p: nat)
    decreases |s| - p
  {
    if p >= |s| then true
    else if s[p] == '"' then
      var q := M.LiteralEnd(s, p + 1);
      q <= |s| && Complete(s[p + 1..q - 1]) && Literals(s, q)
    else Literals(s, p + 1)
  }

  lemma {:induction false} LiteralsOn(s: string, p: nat, q: nat)
    requires p <= q <= |s| && Literals(s, p) && forall i :: p <= i < q ==> s[i] != '"'
    ensures Literals(s, q)
    decreases q - p
  {
    if p < q {
      LiteralsOn(s, p + 1, q);
    }
  }

  // --------------------------------------------------------------------- blanks

  lemma {:induction false} Skipped(s: string, p: nat) returns (b: string)
    requires p <= |s| && Literals(s, p)
    ensures Blanks(b) && Occurs(s, p, b) && Skip(s, p) == p + |b| && Literals(s, Skip(s, p))
    decreases |s| - p
  {
    if p < |s| && s[p] <= ' ' {
      var rest := Skipped(s, p + 1);
      b := [s[p]] + rest;
      OccursConcat(s, p, [s[p]], rest);
      OccursChar(s, p, s[p]);
    } else {
      b := "";
    }
  }

  // --------------------------------------------------------------------- numbers

  lemma TailSyntax(s: string, p: nat) returns (x: Exponent)
    requires p <= |s|
    ensures
      var n := Spelling(true, false, "", "", x);
      n.WellFormed() && Occurs(s, p, n.Tail()) && ExponentAt(s, p).1 == p + |n.Tail()|
  {
    if HasExponent(s, p) {
      var d := ExponentStart(s, p);
      var q := DigitsEnd(s, d);
      var sign, digits := s[p + 1..d], s[d..q];
      TailWell(s, p, d, q);
      x := Exponent(s[p], sign, digits);
      hide Occurs, AllDigits, DigitsEnd, ExponentStart, ExponentAt;
      OccursChar(s, p, s[p]);
      P.OccursSlice(s, p + 1, d, sign);
      P.OccursSlice(s, d, q, digits);
      OccursConcat(s, p + 1, sign, digits);
      OccursConcat(s, p, [s[p]], sign + digits);
    } else {
      x := NoExponent;
    }
  }

  lemma TailWell(s: string, p: nat, d: nat, q: nat)
    requires p <= |s| && HasExponent(s, p) && d == ExponentStart(s, p) && q == DigitsEnd(s, d)
    ensures p + 1 <= d <= q <= |s| && s[p] in "eE" && s[p + 1..d] in ["", "+", "-"]
    ensures AllDigits(s[d..q]) && ExponentAt(s, p).1 == q
  {
    var sign := s[p + 1..d];
    assert sign == "" || sign == "+" || sign == "-";
    hide JsonGrammar.Digits;
  }

  lemma PointSyntax(s: string, p: nat) returns (f: string)
    requires p <= |s|
    ensures
      var n := Spelling(true, false, "", f, NoExponent);
      AllDigits(f) && Occurs(s, p, n.Point()) && FractionEnd(s, p) == p + |n.Point()|
  {
    var q := FractionEnd(s, p);
    if q > p {
      f := s[p + 1..q];
      OccursChar(s, p, '.');
      P.OccursSlice(s, p + 1, q, s[p + 1..q]);
      OccursConcat(s, p, ".", f);
    } else {
      f := "";
    }
  }

  lemma StartSyntax(s: string, p: nat) returns (minus: bool, zero: bool, whole: string)
    requires p < |s| && (s[p] == '-' || IsDigit(s[p]))
    ensures
      var n := Spelling(minus, zero, whole, "", NoExponent);
      var p0 := if At(s, p) == '-' then p + 1 else p;
      n.WellFormed() && Occurs(s, p, n.Start()) && IntegerEnd(s, p0) == p + |n.Start()|
  {
    hide Occurs, AllDigits, IntegerEnd, ZeroEnd, Spelling.WellFormed, Spelling.Start, Spelling.Sign, Spelling.Zero;
    minus := s[p] == '-';
    var p0 := if minus then p + 1 else p;
    zero := At(s, p0) == '0';
    var p1, p2 := ZeroEnd(s, p0), IntegerEnd(s, p0);
    StartWell(s, p, p0, p1, p2);
    whole := s[p1..p2];
    var n := Spelling(minus, zero, whole, "", NoExponent);
    StartIs(n);
    SignOccurs(s, p, minus);
    ZeroOccurs(s, p0, zero);
    P.OccursSlice(s, p1, p2, whole);
    OccursConcat(s, p0, n.Zero(), whole);
    OccursConcat(s, p, n.Sign(), n.Zero() + whole);
  }

  lemma StartIs(n: Spelling)
    ensures n.Start() == n.Sign() + (n.Zero() + n.whole)
    ensures n.Sign() == (if n.minus then "-" else "") && n.Zero() == (if n.zero then "0" else "")
    ensures
      (AllDigits(n.whole) && (n.whole == "" || n.whole[0] != '0') && (n.minus || n.zero || n.whole != "")
       && n.fraction == "" && n.exponent.NoExponent?) ==> n.WellFormed()
  {
  }

  lemma StartWell(s: string, p: nat, p0: nat, p1: nat, p2: nat)
    requires p < |s| && (s[p] == '-' || IsDigit(s[p])) && p0 == (if s[p] == '-' then p + 1 else p)
    requires p1 == ZeroEnd(s, p0) && p2 == IntegerEnd(s, p0)
    ensures p1 <= p2 <= |s| && AllDigits(s[p1..p2]) && (p1 == p2 || s[p1] != '0')
    ensures p1 == p0 + (if At(s, p0) == '0' then 1 else 0)
    ensures s[p] == '-' || At(s, p0) == '0' || p1 < p2
  {
  }

  lemma SignOccurs(s: string, p: nat, minus: bool)
    requires p < |s| && (minus <==> s[p] == '-')
    ensures Occurs(s, p, if minus then "-" else "")
  {
    OccursChar(s, p, '-');
  }

  lemma ZeroOccurs(s: string, p: nat, zero: bool)
    requires p <= |s| && (zero <==> At(s, p) == '0')
    ensures Occurs(s, p, if zero then "0" else "")
  {
    OccursChar(s, p, '0');
  }

  lemma NumberSyntax(s: string, p: nat) returns (n: Spelling)
    requires p < |s| && (s[p] == '-' || IsDigit(s[p]))
    ensures n.WellFormed() && Occurs(s, p, n.Text()) && ParseNumber(s, p).end == p + |n.Text()|
  {
    hide Occurs, AllDigits, ParseNumber, IntegerEnd, FractionEnd, ExponentAt, Spelling.WellFormed, Spelling.Text;
    hide Spelling.Start, Spelling.Point, Spelling.Tail;
    var minus, zero, whole := StartSyntax(s, p);
    var p0 := if At(s, p) == '-' then p + 1 else p;
    var p2 := IntegerEnd(s, p0);
    var f := PointSyntax(s, p2);
    var p3 := FractionEnd(s, p2);
    var x := TailSyntax(s, p3);
    n := Spelling(minus, zero, whole, f, x);
    EndIs(s, p, p0, p2, p3);
    SameParts(n);
    SameWell(n);
    OccursConcat(s, p2, n.Point(), n.Tail());
    OccursConcat(s, p, n.Start(), n.Point() + n.Tail());
  }

  lemma EndIs(s: string, p: nat, p0: nat, p2: nat, p3: nat)
    requires p <= |s| && p0 == (if At(s, p) == '-' then p + 1 else p) && p0 <= |s|
    requires p2 == IntegerEnd(s, p0) && p3 == FractionEnd(s, p2)
    ensures ParseNumber(s, p).end == ExponentAt(s, p3).1
  {
    hide IntegerEnd, FractionEnd, ExponentAt, JsonGrammar.Digits;
  }

  lemma SameParts(n: Spelling)
    ensures n.Start() == Spelling(n.minus, n.zero, n.whole, "", NoExponent).Start()
    ensures n.Point() == Spelling(true, false, "", n.fraction, NoExponent).Point()
    ensures n.Tail() == Spelling(true, false, "", "", n.exponent).Tail()
    ensures n.Text() == n.Start() + (n.Point() + n.Tail())
  {
  }

  lemma SameWell(n: Spelling)
    requires Spelling(n.minus, n.zero, n.whole, "", NoExponent).WellFormed() && AllDigits(n.fraction)
    requires Spelling(true, false, "", "", n.exponent).WellFormed()
    ensures n.WellFormed()
  {
  }

  // --------------------------------------------------------------------- literals

  lemma LiteralSyntax(s: string, p: nat) returns (us: seq<Unit>)
    requires p < |s| && s[p] == '"' && Literals(s, p)
    ensures JsonLiterals.WellFormed(us) && Occurs(s, p, Quoted(us))
    ensures ParseString(s, p).Parsed? && ParseString(s, p).end == p + |Quoted(us)| && Literals(s, p + |Quoted(us)|)
  {
    var q := M.LiteralEnd(s, p + 1);
    P.EndsWithQuote(s, p + 1);
    us := Units(s[p + 1..q - 1]);
    hide Occurs, ParseString, Source, Complete, M.LiteralEnd;
    P.QuotedSlice(s, p, q, Source(us));
    P.OccursSlice(s, p, q, Quoted(us));
    ParseStringAgrees(us, s, p);
  }

  // --------------------------------------------------------------------- values

  // v is a value of the grammar that stands at p and ends at e; behind it the literals go on.
  predicate Stands(v: Syntax, s: string, p: nat, e: nat) {
    JsonSyntax.WellFormed(v) && Occurs(s, p, Text(v)) && e == p + |Text(v)| <= |s| && Literals(s, e)
  }

  lemma {:induction false} ValueSyntax(s: string, p: nat) returns (v: Syntax)
    requires p <= |s| && Literals(s, p) && ParseValue(s, p).Parsed?
    ensures Stands(v, s, p, ParseValue(s, p).end)
    decreases |s| - p, 2
  {
    hide *;
    P.FirstTells(s, p);
    P.ValueIs(s, p);
    if s[p] == '"' {
      var us := LiteralSyntax(s, p);
      v := Literal(us);
      LiteralStands(us, s, p);
    } else if s[p] == '[' {
      v := ArraySyntax(s, p);
    } else if s[p] == '{' {
      v := ObjectSyntax(s, p);
    } else {
      v := SimpleSyntax(s, p);
    }
  }

  lemma LiteralStands(us: seq<Unit>, s: string, p: nat)
    requires JsonLiterals.WellFormed(us) && Occurs(s, p, Quoted(us)) && Literals(s, p + |Quoted(us)|)
    ensures Stands(Literal(us), s, p, p + |Quoted(us)|)
  {
  }

  lemma SimpleSyntax(s: string, p: nat) returns (v: Syntax)
    requires p < |s| && Literals(s, p) && ParseValue(s, p).Parsed? && s[p] != '"' && s[p] != '[' && s[p] != '{'
    ensures Stands(v, s, p, ParseValue(s, p).end)
  {
    hide Occurs, ParseValue, ParseNumber, Literals;
    P.FirstTells(s, p);
    P.ValueIs(s, p);
    if s[p] == 'n' || s[p] == 'f' || s[p] == 't' {
      v := if s[p] == 'n' then NullWord else if s[p] == 'f' then FalseWord else TrueWord;
      WordOn(s, p, Text(v));
    } else {
      P.FirstIsNumber(s, p);
      var n := NumberSyntax(s, p);
      v := NumberText(n);
      NumberOn(s, p);
    }
  }

  lemma WordOn(s: string, p: nat, w: string)
    requires Occurs(s, p, w) && Literals(s, p) && forall i :: 0 <= i < |w| ==> w[i] != '"'
    ensures p + |w| <= |s| && Literals(s, p + |w|)
  {
    forall i | p <= i < p + |w| ensures s[i] != '"' {
      assert s[p + (i - p)] == w[i - p];
    }
    LiteralsOn(s, p, p + |w|);
  }

  lemma NumberOn(s: string, p: nat)
    requires p <= |s| && Literals(s, p)
    ensures ParseNumber(s, p).end <= |s| && Literals(s, ParseNumber(s, p).end)
  {
    P.NumberPlain(s, p);
    hide ParseNumber;
    LiteralsOn(s, p, ParseNumber(s, p).end);
  }

  lemma Within(s: string, p: nat, t: string)
    requires Occurs(s, p, t)
    ensures p + |t| <= |s|
  {
  }

  lemma MarkOn(s: string, p: nat)
    requires p < |s| && Literals(s, p) && s[p] != '"'
    ensures Literals(s, p + 1)
  {
  }

  lemma {:induction false} ArraySyntax(s: string, p: nat) returns (v: Syntax)
    requires p < |s| && s[p] == '[' && Literals(s, p) && ParseArray(s, p).Parsed?
    ensures Stands(v, s, p, ParseArray(s, p).end)
    decreases |s| - p, 1
  {
    hide *;
    MarkOn(s, p);
    P.ArrayParts(s, p);
    var b := Skipped(s, p + 1);
    var q := p + 1 + |b|;
    if At(s, q) == ']' {
      v := EmptyArray(s, p, b);
    } else {
      var items := ItemsSyntax(s, p + 1, b);
      v := ArrayText("", items);
      ArrayStands(items, s, p);
    }
  }

  lemma EmptyArray(s: string, p: nat, b: string) returns (v: Syntax)
    requires p < |s| && s[p] == '[' && Occurs(s, p + 1, b) && Blanks(b) && p + 1 + |b| <= |s|
    requires At(s, p + 1 + |b|) == ']' && Literals(s, p + 1 + |b|)
    ensures Stands(v, s, p, p + 2 + |b|)
  {
    v := ArrayText(b, []);
    assert "[" == ['['] && "]" == [']'];
    OccursChar(s, p, '[');
    OccursChar(s, p + 1 + |b|, ']');
    OccursConcat(s, p + 1, b, "]");
    OccursConcat(s, p, "[", b + "]");
    MarkOn(s, p + 1 + |b|);
    NoItems();
    hide Occurs, Literals, Blanks;
  }

  lemma ArrayStands(items: seq<Element>, s: string, p: nat)
    requires items != [] && ItemsWellFormed(items) && p < |s| && s[p] == '['
    requires Occurs(s, p + 1, ItemsText(items)) && Literals(s, p + 1 + |ItemsText(items)|)
    ensures Stands(ArrayText("", items), s, p, p + 1 + |ItemsText(items)|)
  {
    OccursChar(s, p, '[');
    OccursConcat(s, p, "[", ItemsText(items));
    Within(s, p + 1, ItemsText(items));
    NoBlanks();
    hide Occurs, Literals, Blanks, ItemsText;
  }

  // The items from p on, the first one behind the blanks b
  lemma {:induction false} ItemsSyntax(s: string, p: nat, b: string) returns (items: seq<Element>)
    requires Blanks(b) && Occurs(s, p, b) && p + |b| <= |s| && Literals(s, p + |b|) && ParseItems(s, p + |b|).Parsed?
    ensures items != [] && ItemsWellFormed(items) && Occurs(s, p, ItemsText(items))
    ensures ParseItems(s, p + |b|).end == p + |ItemsText(items)| && Literals(s, p + |ItemsText(items)|)
    decreases |s| - p - |b|, 3
  {
    hide *;
    var q := p + |b|;
    P.ItemsMark(s, q);
    P.ItemsParts(s, q);
    var v := ValueSyntax(s, q);
    var e := ParseValue(s, q).end;
    Ahead(v, s, q, e);
    var a := Skipped(s, e);
    var f := e + |a|;
    MarkOn(s, f);
    if s[f] == ',' {
      var c := Skipped(s, f + 1);
      var rest := ItemsSyntax(s, f + 1, c);
      items := [Element(b, v, a)] + rest;
      ItemsJoin(s, p, b, v, a, rest, q, e, f);
    } else {
      NoItems();
      items := [Element(b, v, a)] + [];
      ItemsJoin(s, p, b, v, a, [], q, e, f);
    }
  }

  lemma NoItems()
    ensures ItemsWellFormed([]) && EntriesWellFormed([])
  {
  }

  lemma Ahead(v: Syntax, s: string, p: nat, e: nat)
    requires Stands(v, s, p, e)
    ensures p < e <= |s| && Literals(s, e)
  {
    FirstIs(v);
  }

  lemma ItemsJoin(s: string, p: nat, b: string, v: Syntax, a: string, rest: seq<Element>, q: nat, e: nat, f: nat)
    requires Blanks(b) && Blanks(a) && Stands(v, s, q, e) && ItemsWellFormed(rest)
    requires Occurs(s, p, b) && q == p + |b| && Occurs(s, e, a) && f == e + |a| < |s|
    requires s[f] == (if rest == [] then ']' else ',') && (rest != [] ==> Occurs(s, f + 1, ItemsText(rest)))
    ensures
      var items := [Element(b, v, a)] + rest;
      && ItemsWellFormed(items) && Occurs(s, p, ItemsText(items))
      && |ItemsText(items)| == f + 1 - p + (if rest == [] then 0 else |ItemsText(rest)|)
  {
    hide Occurs, Blanks, JsonSyntax.WellFormed, Text, ItemsText;
    var items := [Element(b, v, a)] + rest;
    assert items[1..] == rest;
    var mark, more := if rest == [] then ']' else ',', if rest == [] then "" else ItemsText(rest);
    assert ItemsWellFormed(items);
    ItemsTextIs(items, mark, more);
    hide ItemsWellFormed;
    MarkAndMore(s, f, mark, more);
    PutTogether(s, p, b, Text(v), a, [mark] + more);
  }

  lemma MarkAndMore(s: string, f: nat, mark: char, more: string)
    requires f < |s| && s[f] == mark && (more != "" ==> Occurs(s, f + 1, more))
    ensures Occurs(s, f, [mark] + more)
  {
    OccursChar(s, f, mark);
    OccursConcat(s, f, [mark], more);
  }

  lemma {:induction false} ObjectSyntax(s: string, p: nat) returns (v: Syntax)
    requires p < |s| && s[p] == '{' && Literals(s, p) && ParseObject(s, p).Parsed?
    ensures Stands(v, s, p, ParseObject(s, p).end)
    decreases |s| - p, 1
  {
    hide *;
    MarkOn(s, p);
    P.ObjectParts(s, p);
    var b := Skipped(s, p + 1);
    var q := p + 1 + |b|;
    if At(s, q) == '}' {
      v := EmptyObject(s, p, b);
    } else {
      var entries := EntriesSyntax(s, p + 1, b);
      v := ObjectText("", entries);
      ObjectStands(entries, s, p);
    }
  }

  lemma EmptyObject(s: string, p: nat, b: string) returns (v: Syntax)
    requires p < |s| && s[p] == '{' && Occurs(s, p + 1, b) && Blanks(b) && p + 1 + |b| <= |s|
    requires At(s, p + 1 + |b|) == '}' && Literals(s, p + 1 + |b|)
    ensures Stands(v, s, p, p + 2 + |b|)
  {
    v := ObjectText(b, []);
    assert "{" == ['{'] && "}" == ['}'];
    OccursChar(s, p, '{');
    OccursChar(s, p + 1 + |b|, '}');
    OccursConcat(s, p + 1, b, "}");
    OccursConcat(s, p, "{", b + "}");
    MarkOn(s, p + 1 + |b|);
    NoItems();
    hide Occurs, Literals, Blanks;
  }

  lemma ObjectStands(entries: seq<Entry>, s: string, p: nat)
    requires entries != [] && EntriesWellFormed(entries) && p < |s| && s[p] == '{'
    requires Occurs(s, p + 1, EntriesText(entries)) && Literals(s, p + 1 + |EntriesText(entries)|)
    ensures Stands(ObjectText("", entries), s, p, p + 1 + |EntriesText(entries)|)
  {
    OccursChar(s, p, '{');
    OccursConcat(s, p, "{", EntriesText(entries));
    Within(s, p + 1, EntriesText(entries));
    NoBlanks();
    hide Occurs, Literals, Blanks, EntriesText;
  }

  lemma {:induction false} EntriesSyntax(s: string, p: nat, b: string) returns (entries: seq<Entry>)
    requires Blanks(b) && Occurs(s, p, b) && p + |b| <= |s| && Literals(s, p + |b|) && ParseMembers(s, p + |b|).Parsed?
    ensures entries != [] && EntriesWellFormed(entries) && Occurs(s, p, EntriesText(entries))
    ensures ParseMembers(s, p + |b|).end == p + |EntriesText(entries)| && Literals(s, p + |EntriesText(entries)|)
    decreases |s| - p - |b|, 4
  {
    hide *;
    var q := p + |b|;
    P.MembersMark(s, q);
    P.MembersParts(s, q);
    var x := EntrySyntax(s, q, b);
    var f := q + |EntryText(x)|;
    MarkOn(s, f);
    if s[f] == ',' {
      var c := Skipped(s, f + 1);
      var rest := EntriesSyntax(s, f + 1, c);
      entries := [x] + rest;
      EntriesJoin(s, p, x, rest, q, f);
    } else {
      NoItems();
      entries := [x] + [];
      EntriesJoin(s, p, x, [], q, f);
    }
  }

  lemma EntriesJoin(s: string, p: nat, x: Entry, rest: seq<Entry>, q: nat, f: nat)
    requires EntryWellFormed(x) && EntriesWellFormed(rest)
    requires Occurs(s, p, x.before) && q == p + |x.before| && Occurs(s, q, EntryText(x)) && f == q + |EntryText(x)| < |s|
    requires s[f] == (if rest == [] then '}' else ',') && (rest != [] ==> Occurs(s, f + 1, EntriesText(rest)))
    ensures
      var entries := [x] + rest;
      && EntriesWellFormed(entries) && Occurs(s, p, EntriesText(entries))
      && |EntriesText(entries)| == f + 1 - p + (if rest == [] then 0 else |EntriesText(rest)|)
  {
    hide Occurs, Blanks, JsonSyntax.WellFormed, Text, EntriesText, EntryText, EntryWellFormed;
    var entries := [x] + rest;
    assert entries[1..] == rest;
    var mark, more := if rest == [] then '}' else ',', if rest == [] then "" else EntriesText(rest);
    assert EntriesWellFormed(entries);
    EntriesTextIs(entries, mark, more);
    hide EntriesWellFormed;
    MarkAndMore(s, f, mark, more);
    OccursConcat(s, q, EntryText(x), [mark] + more);
    OccursConcat(s, p, x.before, EntryText(x) + ([mark] + more));
  }

  // An entry whose name begins at p behind the blanks b; its blanks at the end are those that
  // the parser skips behind the member.
  lemma {:induction false} EntrySyntax(s: string, p: nat, b: string) returns (x: Entry)
    requires Blanks(b) && p <= |s| && Literals(s, p) && ParseMember(s, p).Parsed?
    ensures EntryWellFormed(x) && x.before == b && Occurs(s, p, EntryText(x))
    ensures Skip(s, ParseMember(s, p).end) == p + |EntryText(x)| <= |s| && Literals(s, p + |EntryText(x)|) && |EntryText(x)| > 0
    decreases |s| - p, 3
  {
    hide *;
    P.MemberMark(s, p);
    NameAhead(s, p);
    var us := LiteralSyntax(s, p);
    var a := p + |Quoted(us)|;
    var after := Skipped(s, a);
    var c := a + |after|;
    MarkOn(s, c);
    var before := Skipped(s, c + 1);
    var d := c + 1 + |before|;
    NameLonger(us);
    var v := ValueSyntax(s, d);
    var e := ParseMember(s, p).end;
    Ahead(v, s, d, e);
    var last := Skipped(s, e);
    x := Entry(b, us, after, Element(before, v, last));
    EntryJoin(x, s, p, a, c, d, e);
  }

  lemma NameAhead(s: string, p: nat)
    requires p <= |s| && At(s, p) == '"'
    ensures p < |s| && s[p] == '"'
  {
  }

  lemma NameLonger(us: seq<Unit>)
    ensures |Quoted(us)| >= 2
  {
  }

  lemma EntryJoin(x: Entry, s: string, p: nat, a: nat, c: nat, d: nat, e: nat)
    requires Blanks(x.before) && JsonLiterals.WellFormed(x.name) && Blanks(x.after) && Blanks(x.element.before)
    requires Blanks(x.element.after) && Stands(x.element.value, s, d, e)
    requires Occurs(s, p, Quoted(x.name)) && a == p + |Quoted(x.name)| && Occurs(s, a, x.after) && c == a + |x.after| < |s|
    requires s[c] == ':' && Occurs(s, c + 1, x.element.before) && d == c + 1 + |x.element.before|
    requires Occurs(s, e, x.element.after)
    ensures EntryWellFormed(x) && Occurs(s, p, EntryText(x)) && p + |EntryText(x)| == e + |x.element.after|
    ensures |EntryText(x)| > 0
  {
    NameLonger(x.name);
    hide Occurs, Blanks, Text, JsonSyntax.WellFormed, Quoted, Literals;
    var el := x.element;
    var value := el.before + (Text(el.value) + el.after);
    OccursConcat(s, d, Text(el.value), el.after);
    OccursConcat(s, c + 1, el.before, Text(el.value) + el.after);
    assert ":" == [':'];
    OccursChar(s, c, ':');
    OccursConcat(s, c, ":", value);
    OccursConcat(s, a, x.after, ":" + value);
    OccursConcat(s, p, Quoted(x.name), x.after + (":" + value));
    assert EntryText(x) == Quoted(x.name) + (x.after + (":" + value));
  }

  lemma PutTogether(s: string, p: nat, b: string, t: string, a: string, more: string)
    requires Occurs(s, p, b) && Occurs(s, p + |b|, t) && Occurs(s, p + |b| + |t|, a) && Occurs(s, p + |b| + |t| + |a|, more)
    ensures Occurs(s, p, b + (t + (a + more)))
  {
    hide Occurs;
    OccursConcat(s, p + |b| + |t|, a, more);
    OccursConcat(s, p + |b|, t, a + more);
    OccursConcat(s, p, b, t + (a + more));
  }

  // --------------------------------------------------------------------- whole texts

  predicate IsText(s: string, before: string, v: Syntax, after: string) {
    Blanks(before) && JsonSyntax.WellFormed(v) && Blanks(after) && s == before + Text(v) + after
  }

  // Where its literals are closed and have complete escapes, the parser accepts a text to its end
  // if and only if it is a text of the grammar, and then its result is what the text stands for.
  lemma AcceptedExactly(s: string)
    requires Literals(s, 0)
    ensures Parse(s, true).Parsed? <==> exists before, v, after :: IsText(s, before, v, after)
    ensures forall before, v, after :: IsText(s, before, v, after) && Parse(s, true).Parsed? ==>
              StandsFor(v, Parse(s, true).value)
  {
    forall before, v, after | IsText(s, before, v, after)
      ensures Parse(s, true).Parsed? && StandsFor(v, Parse(s, true).value)
    {
      TextParses(before, v, after);
    }
    if Parse(s, true).Parsed? {
      var before, v, after := AcceptedText(s);
    }
    hide IsText;
  }

  lemma AcceptedText(s: string) returns (before: string, v: Syntax, after: string)
    requires Literals(s, 0) && Parse(s, true).Parsed?
    ensures IsText(s, before, v, after)
  {
    hide Occurs, Literals, ParseValue, Skip, Text, Blanks, JsonSyntax.WellFormed;
    before := Skipped(s, 0);
    v := ValueSyntax(s, |before|);
    var e := |before| + |Text(v)|;
    after := Skipped(s, e);
    Covers(s, before, Text(v), after);
  }

  lemma Covers(s: string, before: string, t: string, after: string)
    requires Occurs(s, 0, before) && Occurs(s, |before|, t) && Occurs(s, |before| + |t|, after)
    requires |before| + |t| + |after| == |s|
    ensures s == before + t + after
  {
    OccursConcat(s, |before|, t, after);
    OccursConcat(s, 0, before, t + after);
    assert before + t + after == before + (t + after);
    forall i | 0 <= i < |s| ensures s[i] == (before + (t + after))[i] {
      assert s[0 + i] == (before + (t + after))[i];
    }
  }
}
