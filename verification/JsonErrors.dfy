// Where the parser says that a text is wrong (3rdParty/libcjson/cJSON.c:156, 259-298, 318-345,
// 404-437): up to there it could have been accepted, and no text that goes on alike is.
module JsonErrors {
  import opened CText
  import opened Json
  import opened JsonGrammar
  import opened JsonLiterals
  import opened JsonNumbers
  import opened JsonSyntax
  import opened JsonAccepted
  import P = JsonMinifyParse

  // --------------------------------------------------------------------- it could have been right

  // What stands at p up to at is the beginning of t.
  predicate Begins(s: string, p: nat, at: nat, t: string) {
    p <= at <= |s| && at - p <= |t| && s[p..at] == t[..at - p]
  }

  lemma BeginsBehind(s: string, p: nat, q: nat, at: nat, t: string, u: string)
    requires Occurs(s, p, t) && q == p + |t| && Begins(s, q, at, u)
    ensures Begins(s, p, at, t + u)
  {
    assert s[p..q] == t by {
      forall k | 0 <= k < |t| ensures s[p..q][k] == t[k] {
        assert s[p + k] == t[k];
      }
    }
    assert s[p..at] == s[p..q] + s[q..at];
    assert (t + u)[..at - p] == t + u[..at - q];
  }

  lemma BeginsMore(s: string, p: nat, at: nat, t: string, u: string)
    requires Begins(s, p, at, t)
    ensures Begins(s, p, at, t + u)
  {
    assert (t + u)[..at - p] == t[..at - p];
  }

  lemma BeginsHere(s: string, p: nat, t: string)
    requires p <= |s|
    ensures Begins(s, p, p, t)
  {
  }

  // There is a value of the grammar that begins as the text does.
  predicate Viable(v: Syntax, s: string, p: nat, at: nat) {
    JsonSyntax.WellFormed(v) && Begins(s, p, at, Text(v))
  }

  lemma {:induction false} ValueFails(s: string, p: nat) returns (v: Syntax)
    requires p <= |s| && Literals(s, p) && ParseValue(s, p).Failed?
    ensures Viable(v, s, p, ParseValue(s, p).at)
    decreases |s| - p, 2
  {
    hide *;
    if p < |s| {
      P.ValueIs(s, p);
      FailsAs(s, p);
      if s[p] == '[' {
        v := ArrayFails(s, p);
      } else if s[p] == '{' {
        v := ObjectFails(s, p);
      } else {
        NoLiteralFails(s, p);
        v := NullWord;
        NullBegins(s, p);
      }
    } else {
      FailsAtEnd(s);
      v := NullWord;
      NullBegins(s, p);
    }
  }

  lemma MarkAt(s: string, p: nat)
    requires p <= |s| && (At(s, p) == ',' || At(s, p) == ':')
    ensures p < |s| && s[p] == At(s, p)
  {
  }

  lemma NullBegins(s: string, p: nat)
    requires p <= |s|
    ensures Viable(NullWord, s, p, p)
  {
  }

  lemma FailsAtEnd(s: string)
    ensures ParseValue(s, |s|) == Failed(|s|)
  {
  }

  lemma NoLiteralFails(s: string, p: nat)
    requires p < |s| && Literals(s, p)
    ensures s[p] == '"' ==> ParseString(s, p).Parsed?
  {
    if s[p] == '"' {
      var us := LiteralSyntax(s, p);
    }
  }

  // Only an array or an object can fail behind its first character.
  lemma FailsAs(s: string, p: nat)
    requires p < |s| && ParseValue(s, p).Failed?
    ensures s[p] == '[' ==> ParseArray(s, p) == Failed(ParseValue(s, p).at)
    ensures s[p] == '{' ==> ParseObject(s, p) == Failed(ParseValue(s, p).at)
    ensures s[p] != '[' && s[p] != '{' && (s[p] == '"' ==> ParseString(s, p).Parsed?) ==> ParseValue(s, p).at == p
  {
    hide Occurs, ParseArray, ParseObject, ParseNumber, ParseString;
    P.Words(s, p);
  }

  lemma {:induction false} ArrayFails(s: string, p: nat) returns (v: Syntax)
    requires p < |s| && s[p] == '[' && Literals(s, p) && ParseArray(s, p).Failed?
    ensures Viable(v, s, p, ParseArray(s, p).at)
    decreases |s| - p, 1
  {
    hide *;
    MarkOn(s, p);
    var b := Skipped(s, p + 1);
    ArrayFailsAs(s, p, p + 1 + |b|);
    var items := ItemsFail(s, p + 1, b);
    v := ArrayText("", items);
    ArrayViable(items, s, p, ParseArray(s, p).at);
  }

  lemma ArrayFailsAs(s: string, p: nat, q: nat)
    requires p < |s| && s[p] == '[' && q == Skip(s, p + 1) && ParseArray(s, p).Failed?
    ensures ParseItems(s, q) == Failed(ParseArray(s, p).at)
  {
    hide ParseItems, Skip;
  }

  lemma ArrayViable(items: seq<Element>, s: string, p: nat, at: nat)
    requires items != [] && ItemsWellFormed(items) && p < |s| && s[p] == '[' && Begins(s, p + 1, at, ItemsText(items))
    ensures Viable(ArrayText("", items), s, p, at)
  {
    NoBlanks();
    OccursChar(s, p, '[');
    assert "[" == ['['];
    BeginsBehind(s, p, p + 1, at, "[", ItemsText(items));
    hide ItemsText, Occurs, Begins, Blanks;
  }

  lemma {:induction false} ItemsFail(s: string, p: nat, b: string) returns (items: seq<Element>)
    requires Blanks(b) && Occurs(s, p, b) && p + |b| <= |s| && Literals(s, p + |b|) && ParseItems(s, p + |b|).Failed?
    ensures items != [] && ItemsWellFormed(items) && Begins(s, p, ParseItems(s, p + |b|).at, ItemsText(items))
    decreases |s| - p - |b|, 3
  {
    hide *;
    var q := p + |b|;
    var at := ParseItems(s, q).at;
    ItemsFailAs(s, q);
    NoItems();
    NoBlanks();
    if ParseValue(s, q).Failed? {
      var v := ValueFails(s, q);
      items := [Element(b, v, "")] + [];
      ValueCut(s, p, b, v, at, q);
    } else {
      var v := ValueSyntax(s, q);
      var e := ParseValue(s, q).end;
      Ahead(v, s, q, e);
      var a := Skipped(s, e);
      var f := e + |a|;
      if At(s, f) == ',' {
        MarkAt(s, f);
        MarkOn(s, f);
        var c := Skipped(s, f + 1);
        var rest := ItemsFail(s, f + 1, c);
        items := [Element(b, v, a)] + rest;
        ItemsViable(s, p, b, v, a, rest, at, q, e, f);
      } else {
        items := [Element(b, v, a)] + [];
        ItemsViable(s, p, b, v, a, [], at, q, e, f);
      }
    }
  }

  lemma ItemsFailAs(s: string, p: nat)
    requires p <= |s| && ParseItems(s, p).Failed? && Literals(s, p)
    ensures !ParseValue(s, p).Undefined?
    ensures ParseValue(s, p).Failed? ==> ParseValue(s, p) == Failed(ParseItems(s, p).at)
    ensures ParseValue(s, p).Parsed? ==>
      var f := Skip(s, ParseValue(s, p).end);
      if At(s, f) == ',' then ParseItems(s, Skip(s, f + 1)) == Failed(ParseItems(s, p).at)
      else ParseItems(s, p).at == f
  {
    hide ParseValue, Skip;
  }

  lemma ValueCut(s: string, p: nat, b: string, v: Syntax, at: nat, q: nat)
    requires Blanks(b) && Occurs(s, p, b) && q == p + |b| && Viable(v, s, q, at) && ItemsWellFormed([]) && Blanks("")
    ensures
      var items := [Element(b, v, "")] + [];
      ItemsWellFormed(items) && Begins(s, p, at, ItemsText(items))
  {
    hide Occurs, Blanks, JsonSyntax.WellFormed, Text, ItemsText, Begins;
    var items := [Element(b, v, "")] + [];
    assert items[1..] == [];
    assert ItemsWellFormed(items);
    ItemsTextIs(items, ']', "");
    BeginsMore(s, q, at, Text(v), "" + ([']'] + ""));
    BeginsBehind(s, p, q, at, b, Text(v) + ("" + ([']'] + "")));
  }

  lemma ItemsViable(s: string, p: nat, b: string, v: Syntax, a: string, rest: seq<Element>, at: nat, q: nat, e: nat, f: nat)
    requires Blanks(b) && Blanks(a) && Stands(v, s, q, e) && ItemsWellFormed(rest)
    requires Occurs(s, p, b) && q == p + |b| && Occurs(s, e, a) && f == e + |a| <= |s|
    requires if rest == [] then at == f else At(s, f) == ',' && Begins(s, f + 1, at, ItemsText(rest))
    ensures
      var items := [Element(b, v, a)] + rest;
      ItemsWellFormed(items) && Begins(s, p, at, ItemsText(items))
  {
    hide Occurs, Blanks, JsonSyntax.WellFormed, Text, ItemsText, Begins;
    var items := [Element(b, v, a)] + rest;
    assert items[1..] == rest;
    var mark, more := if rest == [] then ']' else ',', if rest == [] then "" else ItemsText(rest);
    assert ItemsWellFormed(items);
    ItemsTextIs(items, mark, more);
    hide ItemsWellFormed;
    if rest == [] {
      BeginsHere(s, f, [mark] + more);
    } else {
      CommaBegins(s, f, at, more);
    }
    BeginsBehind(s, e, f, at, a, [mark] + more);
    BeginsBehind(s, q, e, at, Text(v), a + ([mark] + more));
    BeginsBehind(s, p, q, at, b, Text(v) + (a + ([mark] + more)));
  }

  lemma CommaBegins(s: string, f: nat, at: nat, more: string)
    requires f <= |s| && At(s, f) == ',' && Begins(s, f + 1, at, more)
    ensures Begins(s, f, at, [','] + more)
  {
    OccursChar(s, f, ',');
    BeginsBehind(s, f, f + 1, at, [','], more);
  }

  lemma {:induction false} ObjectFails(s: string, p: nat) returns (v: Syntax)
    requires p < |s| && s[p] == '{' && Literals(s, p) && ParseObject(s, p).Failed?
    ensures Viable(v, s, p, ParseObject(s, p).at)
    decreases |s| - p, 1
  {
    hide *;
    MarkOn(s, p);
    var b := Skipped(s, p + 1);
    ObjectFailsAs(s, p, p + 1 + |b|);
    var entries := EntriesFail(s, p + 1, b);
    v := ObjectText("", entries);
    ObjectViable(entries, s, p, ParseObject(s, p).at);
  }

  lemma ObjectFailsAs(s: string, p: nat, q: nat)
    requires p < |s| && s[p] == '{' && q == Skip(s, p + 1) && ParseObject(s, p).Failed?
    ensures ParseMembers(s, q) == Failed(ParseObject(s, p).at)
  {
    hide ParseMembers, Skip;
  }

  lemma ObjectViable(entries: seq<Entry>, s: string, p: nat, at: nat)
    requires entries != [] && EntriesWellFormed(entries) && p < |s| && s[p] == '{'
    requires Begins(s, p + 1, at, EntriesText(entries))
    ensures Viable(ObjectText("", entries), s, p, at)
  {
    NoBlanks();
    OccursChar(s, p, '{');
    assert "{" == ['{'];
    BeginsBehind(s, p, p + 1, at, "{", EntriesText(entries));
    hide EntriesText, Occurs, Begins, Blanks;
  }

  lemma {:induction false} EntriesFail(s: string, p: nat, b: string) returns (entries: seq<Entry>)
    requires Blanks(b) && Occurs(s, p, b) && p + |b| <= |s| && Literals(s, p + |b|) && ParseMembers(s, p + |b|).Failed?
    ensures entries != [] && EntriesWellFormed(entries) && Begins(s, p, ParseMembers(s, p + |b|).at, EntriesText(entries))
    decreases |s| - p - |b|, 4
  {
    hide *;
    var q := p + |b|;
    var at := ParseMembers(s, q).at;
    MembersFailAs(s, q);
    NoItems();
    if !ParseMember(s, q).Parsed? {
      var x := EntryFails(s, q, b);
      entries := [x] + [];
      EntryCut(s, p, x, at, q);
    } else {
      var x := EntrySyntax(s, q, b);
      var f := q + |EntryText(x)|;
      if At(s, f) == ',' {
        MarkAt(s, f);
        MarkOn(s, f);
        var c := Skipped(s, f + 1);
        var rest := EntriesFail(s, f + 1, c);
        entries := [x] + rest;
        EntriesViable(s, p, x, rest, at, q, f);
      } else {
        entries := [x] + [];
        EntriesViable(s, p, x, [], at, q, f);
      }
    }
  }

  lemma MembersFailAs(s: string, p: nat)
    requires p <= |s| && ParseMembers(s, p).Failed?
    ensures !ParseMember(s, p).Undefined?
    ensures ParseMember(s, p).Failed? ==> ParseMember(s, p) == Failed(ParseMembers(s, p).at)
    ensures ParseMember(s, p).Parsed? ==>
      var f := Skip(s, ParseMember(s, p).end);
      if At(s, f) == ',' then ParseMembers(s, Skip(s, f + 1)) == Failed(ParseMembers(s, p).at)
      else ParseMembers(s, p).at == f
  {
    hide ParseMember, Skip;
  }

  lemma EntryCut(s: string, p: nat, x: Entry, at: nat, q: nat)
    requires EntryWellFormed(x) && Occurs(s, p, x.before) && q == p + |x.before| && Begins(s, q, at, EntryText(x))
    requires EntriesWellFormed([])
    ensures EntriesWellFormed([x] + []) && Begins(s, p, at, EntriesText([x] + []))
  {
    hide Occurs, Blanks, EntryText, EntriesText, Begins, EntryWellFormed;
    var entries := [x] + [];
    assert entries[1..] == [];
    assert EntriesWellFormed(entries);
    EntriesTextIs(entries, '}', "");
    BeginsMore(s, q, at, EntryText(x), ['}'] + "");
    BeginsBehind(s, p, q, at, x.before, EntryText(x) + (['}'] + ""));
  }

  lemma EntriesViable(s: string, p: nat, x: Entry, rest: seq<Entry>, at: nat, q: nat, f: nat)
    requires EntryWellFormed(x) && EntriesWellFormed(rest) && Occurs(s, p, x.before) && q == p + |x.before|
    requires Occurs(s, q, EntryText(x)) && f == q + |EntryText(x)| <= |s|
    requires if rest == [] then at == f else At(s, f) == ',' && Begins(s, f + 1, at, EntriesText(rest))
    ensures EntriesWellFormed([x] + rest) && Begins(s, p, at, EntriesText([x] + rest))
  {
    hide Occurs, Blanks, EntryText, EntriesText, Begins, EntryWellFormed;
    var entries := [x] + rest;
    assert entries[1..] == rest;
    var mark, more := if rest == [] then '}' else ',', if rest == [] then "" else EntriesText(rest);
    assert EntriesWellFormed(entries);
    EntriesTextIs(entries, mark, more);
    hide EntriesWellFormed;
    if rest == [] {
      BeginsHere(s, f, [mark] + more);
    } else {
      CommaBegins(s, f, at, more);
    }
    BeginsBehind(s, q, f, at, EntryText(x), [mark] + more);
    BeginsBehind(s, p, q, at, x.before, EntryText(x) + ([mark] + more));
  }

  lemma {:induction false} EntryFails(s: string, p: nat, b: string) returns (x: Entry)
    requires Blanks(b) && p <= |s| && Literals(s, p) && ParseMember(s, p).Failed?
    ensures EntryWellFormed(x) && x.before == b && Begins(s, p, ParseMember(s, p).at, EntryText(x))
    decreases |s| - p, 3
  {
    hide *;
    var at := ParseMember(s, p).at;
    MemberFailsAs(s, p);
    NoBlanks();
    if At(s, p) != '"' {
      x := Entry(b, [], "", Element("", NullWord, ""));
      SimpleEntry(x);
      BeginsHere(s, p, EntryText(x));
    } else {
      NameAhead(s, p);
      var us := LiteralSyntax(s, p);
      var a := p + |Quoted(us)|;
      var after := Skipped(s, a);
      var c := a + |after|;
      if At(s, c) != ':' {
        x := Entry(b, us, after, Element("", NullWord, ""));
        SimpleEntry(x);
        BeginsHere(s, c, ":" + ValueAndBlanks(x));
        NameBegins(x, s, p, a, c, at);
      } else {
        MarkAt(s, c);
        MarkOn(s, c);
        var before := Skipped(s, c + 1);
        var d := c + 1 + |before|;
        NameLonger(us);
        var v := ValueFails(s, d);
        x := Entry(b, us, after, Element(before, v, ""));
        ValueBegins(x, s, c, d, at);
        NameBegins(x, s, p, a, c, at);
      }
    }
  }

  function ValueAndBlanks(x: Entry): string {
    x.element.before + (Text(x.element.value) + x.element.after)
  }

  lemma SimpleEntry(x: Entry)
    requires Blanks(x.before) && Blanks(x.after) && Blanks("") && x.element == Element("", NullWord, "")
    requires x.name == [] || JsonLiterals.WellFormed(x.name)
    ensures EntryWellFormed(x) && JsonLiterals.WellFormed(x.name)
  {
  }

  lemma MemberFailsAs(s: string, p: nat)
    requires p <= |s| && ParseMember(s, p).Failed? && Literals(s, p)
    ensures At(s, p) != '"' ==> ParseMember(s, p).at == p
    ensures At(s, p) == '"' ==>
      && ParseString(s, p).Parsed?
      && var c := Skip(s, ParseString(s, p).end);
      if At(s, c) != ':' then ParseMember(s, p).at == c
      else ParseValue(s, Skip(s, c + 1)) == Failed(ParseMember(s, p).at)
  {
    if At(s, p) == '"' {
      NoLiteralFails(s, p);
    } else {
      assert ParseString(s, p) == Failed(p);
    }
    hide ParseString, ParseValue, Skip;
  }

  lemma NameBegins(x: Entry, s: string, p: nat, a: nat, c: nat, at: nat)
    requires Occurs(s, p, Quoted(x.name)) && a == p + |Quoted(x.name)| && Occurs(s, a, x.after) && c == a + |x.after|
    requires Begins(s, c, at, ":" + ValueAndBlanks(x))
    ensures Begins(s, p, at, EntryText(x))
  {
    hide Occurs, Begins, Quoted, ValueAndBlanks;
    BeginsBehind(s, a, c, at, x.after, ":" + ValueAndBlanks(x));
    BeginsBehind(s, p, a, at, Quoted(x.name), x.after + (":" + ValueAndBlanks(x)));
    EntryTextIs(x);
  }

  lemma EntryTextIs(x: Entry)
    ensures EntryText(x) == Quoted(x.name) + (x.after + (":" + ValueAndBlanks(x)))
  {
  }

  lemma ValueBegins(x: Entry, s: string, c: nat, d: nat, at: nat)
    requires Blanks(x.before) && JsonLiterals.WellFormed(x.name) && Blanks(x.after) && Blanks(x.element.before)
    requires x.element.after == "" && Blanks("") && c < |s| && s[c] == ':'
    requires Occurs(s, c + 1, x.element.before) && d == c + 1 + |x.element.before| && Viable(x.element.value, s, d, at)
    ensures EntryWellFormed(x) && Begins(s, c, at, ":" + ValueAndBlanks(x))
  {
    hide Occurs, Begins, Text, Blanks, JsonSyntax.WellFormed, JsonLiterals.WellFormed;
    var t := Text(x.element.value);
    BeginsMore(s, d, at, t, "");
    BeginsBehind(s, c + 1, d, at, x.element.before, t + "");
    OccursChar(s, c, ':');
    assert ":" == [':'];
    BeginsBehind(s, c, c + 1, at, ":", ValueAndBlanks(x));
  }

  // Up to the error position a text could have been accepted: some text of the grammar begins
  // alike, and every text of the grammar is accepted.
  lemma ErrorIsViable(s: string) returns (t: string)
    requires Literals(s, 0) && Parse(s, true).Failed?
    ensures Parse(t, true).Parsed? && Begins(s, 0, Parse(s, true).at, t)
  {
    hide *;
    var at := Parse(s, true).at;
    StartsInside(s);
    var before := Skipped(s, 0);
    var p := |before|;
    ParseFailsAs(s, p);
    if ParseValue(s, p).Failed? {
      var v := ValueFails(s, p);
      t := CutText(s, before, v, at);
    } else {
      var v := ValueSyntax(s, p);
      Ahead(v, s, p, ParseValue(s, p).end);
      var after := Skipped(s, ParseValue(s, p).end);
      t := GarbageBehind(s, before, v, after, ParseValue(s, p).end);
    }
  }

  lemma StartsInside(s: string)
    ensures 0 <= |s|
  {
  }

  lemma CutText(s: string, before: string, v: Syntax, at: nat) returns (t: string)
    requires Blanks(before) && Occurs(s, 0, before) && Viable(v, s, |before|, at)
    ensures Parse(t, true).Parsed? && Begins(s, 0, at, t)
  {
    NoBlanks();
    t := before + Text(v) + "";
    TextParses(before, v, "");
    hide Occurs, Begins, Text, Parse, Blanks;
    BeginsBehind(s, 0, |before|, at, before, Text(v));
    BeginsMore(s, 0, at, before + Text(v), "");
  }

  lemma GarbageBehind(s: string, before: string, v: Syntax, after: string, e: nat) returns (t: string)
    requires Blanks(before) && Occurs(s, 0, before) && Stands(v, s, |before|, e)
    requires Blanks(after) && Occurs(s, e, after) && e + |after| <= |s|
    ensures Parse(t, true).Parsed? && Begins(s, 0, e + |after|, t)
  {
    t := before + Text(v) + after;
    hide Occurs, Begins, Text, Parse, Blanks, Literals;
    TextParses(before, v, after);
    AllBegins(s, before, Text(v), after);
  }

  lemma AllBegins(s: string, b: string, u: string, a: string)
    requires Occurs(s, 0, b) && Occurs(s, |b|, u) && Occurs(s, |b| + |u|, a) && |b| + |u| + |a| <= |s|
    ensures Begins(s, 0, |b| + |u| + |a|, b + u + a)
  {
    hide Occurs, Begins;
    var at := |b| + |u| + |a|;
    BeginsHere(s, at, "");
    Nothing(a);
    BeginsBehind(s, |b| + |u|, at, at, a, "");
    BeginsBehind(s, |b|, |b| + |u|, at, u, a);
    BeginsBehind(s, 0, |b|, at, b, u + a);
    CText.Associate(b, u, a);
  }

  lemma ParseFailsAs(s: string, p: nat)
    requires p == Skip(s, 0) && Parse(s, true).Failed?
    ensures p <= |s| && !ParseValue(s, p).Undefined?
    ensures ParseValue(s, p).Failed? ==> ParseValue(s, p).at == Parse(s, true).at
    ensures ParseValue(s, p).Parsed? ==> Skip(s, ParseValue(s, p).end) == Parse(s, true).at
  {
    hide ParseValue, Skip;
  }

  // --------------------------------------------------------------------- it is wrong there

  // C sees the terminator at the end of the text and behind it nothing that matters.
  function Peek(s: string, i: nat): char {
    if i < |s| then s[i] else NUL
  }

  // Both texts have the same n characters, the terminator included.
  predicate Same(s: string, t: string, n: nat) {
    NulFree(s) && NulFree(t) && forall i :: 0 <= i < n ==> Peek(s, i) == Peek(t, i)
  }

  lemma InBoth(s: string, t: string, n: nat, p: nat)
    requires Same(s, t, n) && p <= |s| && p <= n
    ensures p <= |t| && (p < n ==> At(s, p) == At(t, p) && (p == |s| <==> p == |t|))
  {
    assert p > |t| ==> Peek(s, |t|) == Peek(t, |t|);
    assert p < n ==> Peek(s, p) == Peek(t, p);
  }

  lemma SameBack(s: string, t: string, n: nat)
    requires Same(s, t, n)
    ensures Same(t, s, n)
  {
    forall i | 0 <= i < n ensures Peek(t, i) == Peek(s, i) {
      assert Peek(s, i) == Peek(t, i);
    }
  }

  lemma {:induction false} SkipSame(s: string, t: string, n: nat, p: nat)
    requires Same(s, t, n) && p <= |s| && Skip(s, p) < n
    ensures p <= |t| && Skip(t, p) == Skip(s, p)
    decreases |s| - p
  {
    InBoth(s, t, n, p);
    hide Same;
    if p < |s| && s[p] <= ' ' {
      SkipSame(s, t, n, p + 1);
    }
  }

  lemma {:induction false} DigitsEndSame(s: string, t: string, n: nat, p: nat)
    requires Same(s, t, n) && p <= |s| && DigitsEnd(s, p) < n
    ensures p <= |t| && DigitsEnd(t, p) == DigitsEnd(s, p)
    decreases |s| - p
  {
    InBoth(s, t, n, p);
    hide Same;
    if p < |s| && IsDigit(s[p]) {
      DigitsEndSame(s, t, n, p + 1);
    }
  }

  lemma {:induction false} DigitsSame(x: int, s: string, t: string, n: nat, p: nat, q: nat)
    requires Same(s, t, n) && p <= q <= |s| && q <= n
    ensures q <= |t| && Digits(x, s, p, q) == Digits(x, t, p, q)
    decreases q - p
  {
    InBoth(s, t, n, q);
    if p < q {
      InBoth(s, t, n, p);
      DigitsSame(10 * x + (s[p] as int - '0' as int), s, t, n, p + 1, q);
    }
  }

  lemma IntegerSame(s: string, t: string, n: nat, p: nat)
    requires Same(s, t, n) && p <= |s| && IntegerEnd(s, p) < n
    ensures p <= |t| && ZeroEnd(t, p) == ZeroEnd(s, p) && IntegerEnd(t, p) == IntegerEnd(s, p)
  {
    InBoth(s, t, n, p);
    InBoth(s, t, n, ZeroEnd(s, p));
    if '1' <= At(s, ZeroEnd(s, p)) <= '9' {
      DigitsEndSame(s, t, n, ZeroEnd(s, p));
    }
    hide Same, DigitsEnd;
  }

  lemma FractionSame(s: string, t: string, n: nat, p: nat)
    requires Same(s, t, n) && p <= |s| && FractionEnd(s, p) + 1 < n
    ensures p <= |t| && FractionEnd(t, p) == FractionEnd(s, p)
  {
    InBoth(s, t, n, p);
    if At(s, p) == '.' {
      InBoth(s, t, n, p + 1);
      if IsDigit(At(s, p + 1)) {
        DigitsEndSame(s, t, n, p + 1);
      }
    }
    hide Same, DigitsEnd;
  }

  lemma ExponentSame(s: string, t: string, n: nat, p: nat)
    requires Same(s, t, n) && p <= |s| && ExponentAt(s, p).1 < n
    ensures p <= |t| && ExponentAt(t, p) == ExponentAt(s, p)
  {
    InBoth(s, t, n, p);
    if HasExponent(s, p) {
      InBoth(s, t, n, p + 1);
      var d := ExponentStart(s, p);
      DigitsEndSame(s, t, n, d);
      DigitsSame(0, s, t, n, d, DigitsEnd(s, d));
    }
    hide Same, DigitsEnd, Digits;
  }

  lemma MantissaSame(s: string, t: string, n: nat, p: nat)
    requires Same(s, t, n) && p <= |s| && MantissaAt(s, p).end + 1 < n
    ensures p <= |t| && MantissaAt(t, p) == MantissaAt(s, p)
  {
    hide DigitsEnd, Digits, ZeroEnd, IntegerEnd, FractionEnd;
    var p0 := if At(s, p) == '-' then p + 1 else p;
    var p1 := IntegerEnd(s, p0);
    var p2 := FractionEnd(s, p1);
    assert MantissaAt(s, p).end == p2 by { hide Digits; }
    InBoth(s, t, n, p);
    hide Same;
    IntegerSame(s, t, n, p0);
    FractionSame(s, t, n, p1);
    ZeroFirst(s, p0);
    DigitsSame(0, s, t, n, ZeroEnd(s, p0), p1);
    if p2 != p1 {
      DigitsSame(Digits(0, s, ZeroEnd(s, p0), p1), s, t, n, p1 + 1, p2);
    }
  }

  lemma ZeroFirst(s: string, p: nat)
    requires p <= |s|
    ensures ZeroEnd(s, p) <= IntegerEnd(s, p)
  {
  }

  lemma NumberSame(s: string, t: string, n: nat, p: nat)
    requires Same(s, t, n) && p <= |s| && ParseNumber(s, p).end + 1 < n
    ensures p <= |t| && ParseNumber(t, p) == ParseNumber(s, p)
  {
    hide Same, MantissaAt, ExponentAt, Scaled;
    MantissaSame(s, t, n, p);
    ExponentSame(s, t, n, MantissaAt(s, p).end);
  }

  lemma OccursSame(s: string, t: string, n: nat, p: nat, w: string)
    requires Same(s, t, n) && p + |w| <= n && NulFree(w)
    ensures Occurs(s, p, w) <==> Occurs(t, p, w)
  {
    SameBack(s, t, n);
    if Occurs(s, p, w) {
      OccursAlso(s, t, n, p, w);
    }
    if Occurs(t, p, w) {
      OccursAlso(t, s, n, p, w);
    }
  }

  lemma OccursAlso(s: string, t: string, n: nat, p: nat, w: string)
    requires Same(s, t, n) && p + |w| <= n && Occurs(s, p, w)
    ensures Occurs(t, p, w)
  {
    InBoth(s, t, n, p + |w|);
    forall k | 0 <= k < |w| ensures t[p + k] == w[k] {
      InBoth(s, t, n, p + k);
    }
  }

  lemma StringSame(s: string, t: string, n: nat, p: nat)
    requires Same(s, t, n) && p < |s| && s[p] == '"' && Literals(s, p)
    requires ParseString(s, p).Parsed? ==> ParseString(s, p).end <= n
    ensures p <= |t| && ParseString(t, p) == ParseString(s, p) && ParseString(s, p).Parsed?
  {
    hide ParseString, Occurs, Same, Literals;
    var us := LiteralSyntax(s, p);
    OccursAlso(s, t, n, p, Quoted(us));
    NameParses(us, s, p);
    NameParses(us, t, p);
    Within(t, p, Quoted(us));
  }

  // How far a result depends on the text: a word may have been looked for up to here.
  function Reach<T>(r: Result<T>): nat {
    match r
    case Parsed(_, end) => end + 5
    case Failed(at) => at + 5
    case Undefined => 0
  }

  lemma {:induction false} ValueSame(s: string, t: string, n: nat, p: nat)
    requires Same(s, t, n) && p <= |s| && Literals(s, p) && !ParseValue(s, p).Undefined? && Reach(ParseValue(s, p)) <= n
    ensures p <= |t| && ParseValue(t, p) == ParseValue(s, p)
    decreases |s| - p, 2
  {
    hide *;
    InReach(s, p, n);
    InBoth(s, t, n, p);
    WordsSame(s, t, n, p);
    if p == |s| {
      FailsAtEnd(s);
      FailsAtEnd(t);
    } else {
      BothInside(s, t, p);
      P.ValueIs(s, p);
      P.ValueIs(t, p);
      OtherwiseFails(s, p);
      OtherwiseFails(t, p);
      if s[p] == '"' {
        NoLiteralFails(s, p);
        LiteralReach(s, p, n);
        StringSame(s, t, n, p);
      } else if s[p] == '[' {
        ArraySame(s, t, n, p);
      } else if s[p] == '{' {
        ObjectSame(s, t, n, p);
      } else if s[p] == '-' || IsDigit(s[p]) {
        NumberReach(s, p, n);
        NumberSame(s, t, n, p);
      }
    }
  }

  lemma InReach(s: string, p: nat, n: nat)
    requires p <= |s| && !ParseValue(s, p).Undefined? && Reach(ParseValue(s, p)) <= n
    ensures p + 5 <= n
  {
    hide ParseArray, ParseObject, ParseNumber, ParseString, Occurs;
  }

  lemma LiteralReach(s: string, p: nat, n: nat)
    requires p < |s| && s[p] == '"' && ParseString(s, p).Parsed? && Reach(ParseValue(s, p)) <= n
    ensures ParseString(s, p).end <= n
  {
    hide ParseString;
    P.ValueIs(s, p);
  }

  lemma NumberReach(s: string, p: nat, n: nat)
    requires p < |s| && (s[p] == '-' || IsDigit(s[p])) && Reach(ParseValue(s, p)) <= n
    ensures ParseNumber(s, p).end + 5 <= n
  {
    hide ParseNumber;
    P.ValueIs(s, p);
  }

  lemma BothInside(s: string, t: string, p: nat)
    requires p < |s| && p <= |t| && At(s, p) == At(t, p) && (p == |s| <==> p == |t|)
    ensures p < |t| && s[p] == t[p]
  {
  }

  lemma WordsSame(s: string, t: string, n: nat, p: nat)
    requires Same(s, t, n) && p + 5 <= n
    ensures Occurs(s, p, "null") <==> Occurs(t, p, "null")
    ensures Occurs(s, p, "false") <==> Occurs(t, p, "false")
    ensures Occurs(s, p, "true") <==> Occurs(t, p, "true")
  {
    OccursSame(s, t, n, p, "null");
    OccursSame(s, t, n, p, "false");
    OccursSame(s, t, n, p, "true");
  }

  // Where no value begins
  lemma OtherwiseFails(s: string, p: nat)
    requires p < |s|
    ensures
      (s[p] != '"' && s[p] != '[' && s[p] != '{' && s[p] != '-' && !IsDigit(s[p])
       && !Occurs(s, p, "null") && !Occurs(s, p, "false") && !Occurs(s, p, "true")) ==> ParseValue(s, p) == Failed(p)
  {
    hide Occurs;
  }

  // What an array is read as by its items
  lemma ArrayEqual(s: string, t: string, p: nat)
    requires p < |s| && p < |t| && s[p] == t[p] == '[' && Skip(s, p + 1) == Skip(t, p + 1)
    requires var q := Skip(s, p + 1); At(s, q) == At(t, q) && (At(s, q) == ']' || ParseItems(s, q) == ParseItems(t, q))
    ensures ParseArray(s, p) == ParseArray(t, p)
  {
    hide ParseItems, Skip;
  }

  lemma ArrayReach(s: string, p: nat, n: nat)
    requires p < |s| && s[p] == '[' && !ParseArray(s, p).Undefined? && Reach(ParseArray(s, p)) <= n
    ensures
      var q := Skip(s, p + 1);
      q + 5 <= n && (At(s, q) != ']' ==> !ParseItems(s, q).Undefined? && Reach(ParseItems(s, q)) <= n)
  {
    hide ParseItems, Skip;
  }

  lemma {:induction false} ArraySame(s: string, t: string, n: nat, p: nat)
    requires Same(s, t, n) && p < |s| && p < |t| && s[p] == t[p] == '[' && Literals(s, p)
    requires !ParseArray(s, p).Undefined? && Reach(ParseArray(s, p)) <= n
    ensures ParseArray(t, p) == ParseArray(s, p)
    decreases |s| - p, 1
  {
    hide *;
    MarkOn(s, p);
    var b := Skipped(s, p + 1);
    var q := p + 1 + |b|;
    ArrayReach(s, p, n);
    SkipSame(s, t, n, p + 1);
    InBoth(s, t, n, q);
    if At(s, q) != ']' {
      ItemsSame(s, t, n, q);
    }
    ArrayEqual(s, t, p);
  }

  lemma ItemsEqual(s: string, t: string, p: nat)
    requires p <= |s| && p <= |t| && ParseValue(s, p) == ParseValue(t, p)
    requires ParseValue(s, p).Parsed? ==>
      var e := ParseValue(s, p).end;
      && Skip(s, e) == Skip(t, e)
      && var f := Skip(s, e);
      && At(s, f) == At(t, f)
      && (At(s, f) == ',' ==> Skip(s, f + 1) == Skip(t, f + 1) && ParseItems(s, Skip(s, f + 1)) == ParseItems(t, Skip(s, f + 1)))
    ensures ParseItems(s, p) == ParseItems(t, p)
  {
    hide ParseValue, Skip;
  }

  lemma ItemsReach(s: string, p: nat, n: nat)
    requires p <= |s| && !ParseItems(s, p).Undefined? && Reach(ParseItems(s, p)) <= n
    ensures !ParseValue(s, p).Undefined? && Reach(ParseValue(s, p)) <= n
    ensures ParseValue(s, p).Parsed? ==>
      var f := Skip(s, ParseValue(s, p).end);
      && f + 5 <= n
      && (At(s, f) == ',' ==>
            && f < |s| && !ParseItems(s, Skip(s, f + 1)).Undefined? && Reach(ParseItems(s, Skip(s, f + 1))) <= n
            && Skip(s, f + 1) + 5 <= n)
  {
    hide ParseValue, Skip;
  }

  lemma {:induction false} ItemsSame(s: string, t: string, n: nat, p: nat)
    requires Same(s, t, n) && p <= |s| && Literals(s, p) && !ParseItems(s, p).Undefined? && Reach(ParseItems(s, p)) <= n
    ensures p <= |t| && ParseItems(t, p) == ParseItems(s, p)
    decreases |s| - p, 3
  {
    hide *;
    ItemsReach(s, p, n);
    ValueSame(s, t, n, p);
    if ParseValue(s, p).Parsed? {
      var v := ValueSyntax(s, p);
      var e := ParseValue(s, p).end;
      Ahead(v, s, p, e);
      var a := Skipped(s, e);
      var f := e + |a|;
      SkipSame(s, t, n, e);
      InBoth(s, t, n, f);
      if At(s, f) == ',' {
        MarkAt(s, f);
        MarkOn(s, f);
        var c := Skipped(s, f + 1);
        SkipSame(s, t, n, f + 1);
        ItemsSame(s, t, n, f + 1 + |c|);
      }
    }
    ItemsEqual(s, t, p);
  }

  lemma ObjectEqual(s: string, t: string, p: nat)
    requires p < |s| && p < |t| && s[p] == t[p] == '{' && Skip(s, p + 1) == Skip(t, p + 1)
    requires var q := Skip(s, p + 1); At(s, q) == At(t, q) && (At(s, q) == '}' || ParseMembers(s, q) == ParseMembers(t, q))
    ensures ParseObject(s, p) == ParseObject(t, p)
  {
    hide ParseMembers, Skip;
  }

  lemma ObjectReach(s: string, p: nat, n: nat)
    requires p < |s| && s[p] == '{' && !ParseObject(s, p).Undefined? && Reach(ParseObject(s, p)) <= n
    ensures
      var q := Skip(s, p + 1);
      q + 5 <= n && (At(s, q) != '}' ==> !ParseMembers(s, q).Undefined? && Reach(ParseMembers(s, q)) <= n)
  {
    hide ParseMembers, Skip;
  }

  lemma {:induction false} ObjectSame(s: string, t: string, n: nat, p: nat)
    requires Same(s, t, n) && p < |s| && p < |t| && s[p] == t[p] == '{' && Literals(s, p)
    requires !ParseObject(s, p).Undefined? && Reach(ParseObject(s, p)) <= n
    ensures ParseObject(t, p) == ParseObject(s, p)
    decreases |s| - p, 1
  {
    hide *;
    MarkOn(s, p);
    var b := Skipped(s, p + 1);
    var q := p + 1 + |b|;
    ObjectReach(s, p, n);
    SkipSame(s, t, n, p + 1);
    InBoth(s, t, n, q);
    if At(s, q) != '}' {
      MembersSame(s, t, n, q);
    }
    ObjectEqual(s, t, p);
  }

  lemma MembersEqual(s: string, t: string, p: nat)
    requires p <= |s| && p <= |t| && ParseMember(s, p) == ParseMember(t, p)
    requires ParseMember(s, p).Parsed? ==>
      var e := ParseMember(s, p).end;
      && Skip(s, e) == Skip(t, e)
      && var f := Skip(s, e);
      && At(s, f) == At(t, f)
      && (At(s, f) == ',' ==>
            Skip(s, f + 1) == Skip(t, f + 1) && ParseMembers(s, Skip(s, f + 1)) == ParseMembers(t, Skip(s, f + 1)))
    ensures ParseMembers(s, p) == ParseMembers(t, p)
  {
    hide ParseMember, Skip;
  }

  lemma MembersReach(s: string, p: nat, n: nat)
    requires p <= |s| && !ParseMembers(s, p).Undefined? && Reach(ParseMembers(s, p)) <= n
    ensures !ParseMember(s, p).Undefined? && Reach(ParseMember(s, p)) <= n
    ensures ParseMember(s, p).Parsed? ==>
      var f := Skip(s, ParseMember(s, p).end);
      && f + 5 <= n
      && (At(s, f) == ',' ==>
            && f < |s| && !ParseMembers(s, Skip(s, f + 1)).Undefined? && Reach(ParseMembers(s, Skip(s, f + 1))) <= n
            && Skip(s, f + 1) + 5 <= n)
  {
    hide ParseMember, Skip;
  }

  lemma {:induction false} MembersSame(s: string, t: string, n: nat, p: nat)
    requires Same(s, t, n) && p <= |s| && Literals(s, p) && !ParseMembers(s, p).Undefined?
    requires Reach(ParseMembers(s, p)) <= n
    ensures p <= |t| && ParseMembers(t, p) == ParseMembers(s, p)
    decreases |s| - p, 4
  {
    hide *;
    MembersReach(s, p, n);
    MemberSame(s, t, n, p);
    if ParseMember(s, p).Parsed? {
      NoBlanks();
      var x := EntrySyntax(s, p, "");
      var e := ParseMember(s, p).end;
      var f := p + |EntryText(x)|;
      SkipSame(s, t, n, e);
      InBoth(s, t, n, f);
      if At(s, f) == ',' {
        MarkAt(s, f);
        MarkOn(s, f);
        var c := Skipped(s, f + 1);
        SkipSame(s, t, n, f + 1);
        MembersSame(s, t, n, f + 1 + |c|);
      }
    }
    MembersEqual(s, t, p);
  }

  lemma MemberEqual(s: string, t: string, p: nat)
    requires p <= |s| && p <= |t| && ParseString(s, p) == ParseString(t, p)
    requires ParseString(s, p).Parsed? ==>
      var e := ParseString(s, p).end;
      && Skip(s, e) == Skip(t, e)
      && var f := Skip(s, e);
      && At(s, f) == At(t, f)
      && (At(s, f) == ':' ==> Skip(s, f + 1) == Skip(t, f + 1) && ParseValue(s, Skip(s, f + 1)) == ParseValue(t, Skip(s, f + 1)))
    ensures ParseMember(s, p) == ParseMember(t, p)
  {
    hide ParseString, ParseValue, Skip;
  }

  lemma MemberReach(s: string, p: nat, n: nat)
    requires p <= |s| && !ParseMember(s, p).Undefined? && Reach(ParseMember(s, p)) <= n
    ensures p + 5 <= n
    ensures ParseString(s, p).Parsed? ==>
      var f := Skip(s, ParseString(s, p).end);
      && ParseString(s, p).end <= f && f + 5 <= n
      && (At(s, f) == ':' ==>
            && f < |s| && !ParseValue(s, Skip(s, f + 1)).Undefined? && Reach(ParseValue(s, Skip(s, f + 1))) <= n
            && Skip(s, f + 1) + 5 <= n)
  {
    hide ParseString, ParseValue, Skip;
  }

  lemma {:induction false} MemberSame(s: string, t: string, n: nat, p: nat)
    requires Same(s, t, n) && p <= |s| && Literals(s, p) && !ParseMember(s, p).Undefined? && Reach(ParseMember(s, p)) <= n
    ensures p <= |t| && ParseMember(t, p) == ParseMember(s, p)
    decreases |s| - p, 3
  {
    hide *;
    MemberReach(s, p, n);
    InBoth(s, t, n, p);
    if At(s, p) == '"' {
      NameAhead(s, p);
      var us := LiteralSyntax(s, p);
      StringSame(s, t, n, p);
      var a := p + |Quoted(us)|;
      NameLonger(us);
      var after := Skipped(s, a);
      var c := a + |after|;
      SkipSame(s, t, n, a);
      InBoth(s, t, n, c);
      if At(s, c) == ':' {
        MarkAt(s, c);
        MarkOn(s, c);
        var before := Skipped(s, c + 1);
        SkipSame(s, t, n, c + 1);
        ValueSame(s, t, n, c + 1 + |before|);
      }
    } else {
      NoName(s, p);
      NoName(t, p);
    }
    MemberEqual(s, t, p);
  }

  lemma NoName(s: string, p: nat)
    requires p <= |s|
    ensures At(s, p) != '"' ==> ParseString(s, p) == Failed(p)
  {
  }

  // Every text that has the same characters up to the error position, and four more where a word
  // could stand, is wrong at the same position.
  lemma ErrorIsThere(s: string, t: string)
    requires Literals(s, 0) && Parse(s, true).Failed? && Same(s, t, Parse(s, true).at + 5)
    ensures Parse(t, true) == Parse(s, true)
  {
    hide Literals, ParseValue, Skip, Same, Occurs;
    var n := Parse(s, true).at + 5;
    StartsInside(s);
    var before := Skipped(s, 0);
    var p := |before|;
    ParseFailsAs(s, p);
    SkipSame(s, t, n, 0);
    ValueSame(s, t, n, p);
    if ParseValue(s, p).Parsed? {
      var e := ParseValue(s, p).end;
      SkipSame(s, t, n, e);
      InBoth(s, t, n, Skip(s, e));
    }
  }
}
