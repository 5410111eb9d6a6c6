// The texts that the parser accepts, as a grammar of its own
// (3rdParty/libcjson/cJSON.c:92-107, 153-210, 259-298, 318-345, 404-437).
module JsonSyntax {
  import opened CText
  import opened Json
  import opened JsonGrammar
  import opened JsonLiterals
  import opened JsonNumbers
  import opened JsonMinifyParse

  // --------------------------------------------------------------------- the grammar

  // A text with all its blanks.  An empty array or object has blanks between its brackets.
  datatype Syntax =
    | NullWord
    | FalseWord
    | TrueWord
    | NumberText(n: Spelling)
    | Literal(us: seq<Unit>)
    | ArrayText(blanks: string, items: seq<Element>)
    | ObjectText(blanks: string, entries: seq<Entry>)

  datatype Element = Element(before: string, value: Syntax, after: string)

  // The name between its blanks, and the value behind the colon
  datatype Entry = Entry(before: string, name: seq<Unit>, after: string, element: Element)

  // Any characters up to the space are blanks.
  predicate Blanks(b: string) {
    forall k :: 0 <= k < |b| ==> b[k] <= ' '
  }

  predicate WellFormed(v: Syntax)
    decreases v, 0
  {
    match v
    case NumberText(n) => n.WellFormed()
    case Literal(us) => JsonLiterals.WellFormed(us)
    case ArrayText(blanks, items) => Blanks(blanks) && ItemsWellFormed(items)
    case ObjectText(blanks, entries) => Blanks(blanks) && EntriesWellFormed(entries)
    case _ => true
  }

  predicate ItemsWellFormed(items: seq<Element>)
    decreases items, 0
  {
    items == [] ||
    (Blanks(items[0].before) && WellFormed(items[0].value) && Blanks(items[0].after) && ItemsWellFormed(items[1..]))
  }

  predicate EntriesWellFormed(entries: seq<Entry>)
    decreases entries, 0
  {
    entries == [] || (EntryWellFormed(entries[0]) && EntriesWellFormed(entries[1..]))
  }

  predicate EntryWellFormed(e: Entry)
    decreases e, 0
  {
    && Blanks(e.before) && JsonLiterals.WellFormed(e.name) && Blanks(e.after)
    && Blanks(e.element.before) && WellFormed(e.element.value) && Blanks(e.element.after)
  }

  function Quoted(us: seq<Unit>): string {
    "\"" + (Source(us) + "\"")
  }

  function Text(v: Syntax): string
    decreases v, 0
  {
    match v
    case NullWord => "null"
    case FalseWord => "false"
    case TrueWord => "true"
    case NumberText(n) => n.Text()
    case Literal(us) => Quoted(us)
    case ArrayText(blanks, items) => "[" + (if items == [] then blanks + "]" else ItemsText(items))
    case ObjectText(blanks, entries) => "{" + (if entries == [] then blanks + "}" else EntriesText(entries))
  }

  // The items with their commas, and the closing bracket
  function ItemsText(items: seq<Element>): string
    requires items != []
    decreases items, 0
  {
    var x := items[0];
    x.before + (Text(x.value) + (x.after + if items[1..] == [] then "]" else "," + ItemsText(items[1..])))
  }

  function EntriesText(entries: seq<Entry>): string
    requires entries != []
    decreases entries, 0
  {
    entries[0].before + (EntryText(entries[0]) + if entries[1..] == [] then "}" else "," + EntriesText(entries[1..]))
  }

  // An entry without the blanks before it
  function EntryText(e: Entry): string
    decreases e, 0
  {
    Quoted(e.name) + (e.after + (":" + (e.element.before + (Text(e.element.value) + e.element.after))))
  }

  // --------------------------------------------------------------------- what it stands for

  predicate StandsFor(v: Syntax, j: Json)
    decreases v, 0
  {
    match v
    case NullWord => j == Null
    case FalseWord => j == False
    case TrueWord => j == True
    case NumberText(n) => j.Number? && n.Denotes(j.valuedouble)
    case Literal(us) => j == String(Meaning(us))
    case ArrayText(_, items) => j.Array? && ItemsStandFor(items, j.items)
    case ObjectText(_, entries) => j.Object? && EntriesStandFor(entries, j.members)
  }

  predicate ItemsStandFor(items: seq<Element>, js: seq<Json>)
    decreases items, 0
  {
    if items == [] then js == []
    else js != [] && StandsFor(items[0].value, js[0]) && ItemsStandFor(items[1..], js[1..])
  }

  predicate EntriesStandFor(entries: seq<Entry>, ms: seq<Member>)
    decreases entries, 0
  {
    if entries == [] then ms == []
    else
      && ms != [] && ms[0].name == Meaning(entries[0].name) && StandsFor(entries[0].element.value, ms[0].value)
      && EntriesStandFor(entries[1..], ms[1..])
  }

  // A text stands for one value.
  lemma {:induction false} OneValue(v: Syntax, j: Json, k: Json)
    requires StandsFor(v, j) && StandsFor(v, k)
    ensures j == k
    decreases v, 0
  {
    match v
    case NumberText(n) => DenotesOnce(n, j.valuedouble, k.valuedouble);
    case ArrayText(_, items) => OneItems(items, j.items, k.items);
    case ObjectText(_, entries) => OneMembers(entries, j.members, k.members);
    case _ =>
  }

  lemma {:induction false} OneItems(items: seq<Element>, js: seq<Json>, ks: seq<Json>)
    requires ItemsStandFor(items, js) && ItemsStandFor(items, ks)
    ensures js == ks
    decreases items, 0
  {
    if items != [] {
      OneValue(items[0].value, js[0], ks[0]);
      OneItems(items[1..], js[1..], ks[1..]);
      assert js == [js[0]] + js[1..] && ks == [ks[0]] + ks[1..];
    }
  }

  lemma {:induction false} OneMembers(entries: seq<Entry>, ms: seq<Member>, ns: seq<Member>)
    requires EntriesStandFor(entries, ms) && EntriesStandFor(entries, ns)
    ensures ms == ns
    decreases entries, 0
  {
    if entries != [] {
      OneValue(entries[0].element.value, ms[0].value, ns[0].value);
      OneMembers(entries[1..], ms[1..], ns[1..]);
      assert ms == [ms[0]] + ms[1..] && ns == [ns[0]] + ns[1..];
    }
  }

  // --------------------------------------------------------------------- reading it

  lemma {:induction false} SkipIs(s: string, p: nat, b: string)
    requires Blanks(b) && Occurs(s, p, b) && p + |b| <= |s| && At(s, p + |b|) > ' '
    ensures Skip(s, p) == p + |b|
    decreases |b|
  {
    if b != "" {
      assert b == [b[0]] + b[1..];
      OccursConcat(s, p, [b[0]], b[1..]);
      OccursFirst(s, p, b);
      SkipIs(s, p + 1, b[1..]);
    }
  }

  // The first character of a value is no blank and no bracket that closes.
  lemma FirstIs(v: Syntax)
    requires WellFormed(v)
    ensures Text(v) != "" && Text(v)[0] > ' ' && Text(v)[0] != ']' && Text(v)[0] != '}'
    ensures
      var c := Text(v)[0];
      match v
      case NullWord => c == 'n'
      case FalseWord => c == 'f'
      case TrueWord => c == 't'
      case NumberText(n) => c == '-' || IsDigit(c)
      case Literal(us) => c == '"'
      case ArrayText(_, _) => c == '['
      case ObjectText(_, _) => c == '{'
  {
    match v
    case NumberText(n) => NumberFirst(n);
    case _ =>
  }

  lemma NumberFirst(n: Spelling)
    requires n.WellFormed()
    ensures n.Text() != "" && (n.Text()[0] == '-' || IsDigit(n.Text()[0]))
  {
    if !n.minus {
      assert n.Start() == n.Zero() + n.whole;
      assert n.Start() != "" && n.Text()[0] == n.Start()[0];
      assert n.whole != "" ==> IsDigit(n.whole[0]);
    }
  }

  // What may stand behind a value
  predicate MayFollow(v: Syntax, c: char) {
    v.NumberText? ==> v.n.Ends(c)
  }

  lemma BlankFollows(v: Syntax, c: char)
    requires c <= ' ' || c == ',' || c == ']' || c == '}'
    ensures MayFollow(v, c)
  {
  }

  lemma {:induction false} ValueParses(v: Syntax, s: string, p: nat)
    requires WellFormed(v) && Occurs(s, p, Text(v)) && MayFollow(v, At(s, p + |Text(v)|))
    ensures
      var r := ParseValue(s, p);
      r.Parsed? && r.end == p + |Text(v)| && StandsFor(v, r.value)
    decreases v, 1
  {
    hide Occurs, ParseValue, ParseArray, ParseObject, ParseNumber, ParseString, Spelling.Denotes, Spelling.WellFormed;
    FirstIs(v);
    OccursFirst(s, p, Text(v));
    ValueIs(s, p);
    match v
    case NullWord =>
    case FalseWord =>
    case TrueWord =>
    case NumberText(n) =>
      NumberParses(n, s, p);
    case Literal(us) =>
      ParseStringAgrees(us, s, p);
    case ArrayText(_, _) =>
      ArrayParses(v, s, p);
    case ObjectText(_, _) =>
      ObjectParses(v, s, p);
  }

  lemma {:induction false} ArrayParses(v: Syntax, s: string, p: nat)
    requires WellFormed(v) && v.ArrayText? && Occurs(s, p, Text(v)) && p < |s| && s[p] == '['
    ensures
      var r := ParseArray(s, p);
      r.Parsed? && r.end == p + |Text(v)| && StandsFor(v, r.value)
    decreases v, 0
  {
    hide Occurs, ParseArray, ParseItems, Skip;
    ArrayParts(s, p);
    if v.items == [] {
      OccursConcat(s, p, "[", v.blanks + "]");
      OccursConcat(s, p + 1, v.blanks, "]");
      OccursChar(s, p + 1 + |v.blanks|, ']');
      SkipIs(s, p + 1, v.blanks);
    } else {
      OccursConcat(s, p, "[", ItemsText(v.items));
      ItemsParse(v.items, s, p + 1);
    }
  }

  lemma {:induction false} ItemsParse(items: seq<Element>, s: string, p: nat)
    requires items != [] && ItemsWellFormed(items) && Occurs(s, p, ItemsText(items))
    ensures p <= |s| && At(s, Skip(s, p)) != ']'
    ensures
      var r := ParseItems(s, Skip(s, p));
      r.Parsed? && r.end == p + |ItemsText(items)| && ItemsStandFor(items, r.value)
    decreases items, 1
  {
    hide Occurs, ParseItems, ParseValue, Skip, ItemsText, Text, Blanks;
    var x, rest := items[0], items[1..];
    var mark, more := if rest == [] then ']' else ',', if rest == [] then "" else ItemsText(rest);
    var q := p + |x.before|;
    var e := q + |Text(x.value)|;
    var f := e + |x.after|;
    ItemsSplit(items, mark, more, s, p, q, e, f);
    ValueParses(x.value, s, q);
    ItemsParts(s, q);
    if rest == [] {
      assert ItemsStandFor(items, [ParseValue(s, q).value]);
    } else {
      ItemsParse(rest, s, f + 1);
      var js := ParseItems(s, Skip(s, f + 1)).value;
      assert ([ParseValue(s, q).value] + js)[1..] == js;
    }
  }

  lemma ItemsTextIs(items: seq<Element>, mark: char, more: string)
    requires items != [] && ItemsWellFormed(items)
    requires mark == (if items[1..] == [] then ']' else ',')
    requires more == (if items[1..] == [] then "" else ItemsText(items[1..]))
    ensures ItemsText(items) == items[0].before + (Text(items[0].value) + (items[0].after + ([mark] + more)))
    ensures Blanks(items[0].before) && WellFormed(items[0].value) && Blanks(items[0].after)
  {
    hide Text, WellFormed, Blanks;
    if items[1..] != [] {
      assert "," + ItemsText(items[1..]) == [mark] + more;
    } else {
      assert "]" == [mark] + more;
    }
  }

  // Where the parts of the first item are
  lemma ItemsSplit(items: seq<Element>, mark: char, more: string, s: string, p: nat, q: nat, e: nat, f: nat)
    requires items != [] && ItemsWellFormed(items) && Occurs(s, p, ItemsText(items))
    requires mark == (if items[1..] == [] then ']' else ',')
    requires more == (if items[1..] == [] then "" else ItemsText(items[1..]))
    requires q == p + |items[0].before| && e == q + |Text(items[0].value)| && f == e + |items[0].after|
    ensures |ItemsText(items)| == f + 1 + |more| - p && f < |s| && s[f] == mark && At(s, f) == mark
    ensures Occurs(s, q, Text(items[0].value)) && Occurs(s, f + 1, more) && Skip(s, p) == q && Skip(s, e) == f
    ensures At(s, q) == s[q] && s[q] != ']' && MayFollow(items[0].value, At(s, e))
  {
    hide Occurs, ItemsText, Text, WellFormed, ItemsWellFormed, Blanks, Skip, MayFollow;
    var x := items[0];
    ItemsTextIs(items, mark, more);
    FirstIs(x.value);
    Places(s, p, x.before, Text(x.value), x.after, mark, more);
    BlanksAround(s, p, x.before, Text(x.value), x.after);
    BlankFollows(x.value, At(s, e));
  }

  lemma BlanksAround(s: string, p: nat, b: string, v: string, a: string)
    requires
      var q := p + |b|;
      var e := q + |v|;
      Occurs(s, p, b) && Occurs(s, q, v) && Occurs(s, e, a) && e + |a| < |s| && s[e + |a|] > ' '
    requires v != "" && v[0] > ' ' && Blanks(b) && Blanks(a)
    ensures
      var q := p + |b|;
      var e := q + |v|;
      && Skip(s, p) == q && Skip(s, e) == e + |a| && At(s, q) == s[q] == v[0]
      && (At(s, e) <= ' ' || At(s, e) == s[e + |a|])
  {
    hide Occurs, Blanks, Skip;
    OccursFirst(s, p + |b|, v);
    SkipIs(s, p, b);
    BetweenBlanks(s, p + |b| + |v|, a);
    SkipIs(s, p + |b| + |v|, a);
  }

  lemma Places(s: string, p: nat, b: string, v: string, a: string, mark: char, more: string)
    requires Occurs(s, p, b + (v + (a + ([mark] + more))))
    ensures
      var q := p + |b|;
      var e := q + |v|;
      var f := e + |a|;
      && Occurs(s, p, b) && Occurs(s, q, v) && Occurs(s, e, a) && f < |s| && s[f] == mark && Occurs(s, f + 1, more)
  {
    hide Occurs;
    var t := [mark] + more;
    OccursConcat(s, p, b, v + (a + t));
    OccursConcat(s, p + |b|, v, a + t);
    OccursConcat(s, p + |b| + |v|, a, t);
    OccursConcat(s, p + |b| + |v| + |a|, [mark], more);
    OccursChar(s, p + |b| + |v| + |a|, mark);
  }

  // The first of the blanks, or what is behind them
  lemma BetweenBlanks(s: string, p: nat, b: string)
    requires Blanks(b) && Occurs(s, p, b) && p + |b| <= |s|
    ensures At(s, p) <= ' ' || At(s, p) == At(s, p + |b|)
  {
    if b != "" {
      OccursFirst(s, p, b);
    }
  }

  lemma {:induction false} ObjectParses(v: Syntax, s: string, p: nat)
    requires WellFormed(v) && v.ObjectText? && Occurs(s, p, Text(v)) && p < |s| && s[p] == '{'
    ensures
      var r := ParseObject(s, p);
      r.Parsed? && r.end == p + |Text(v)| && StandsFor(v, r.value)
    decreases v, 0
  {
    hide Occurs, ParseObject, ParseMembers, Skip;
    ObjectParts(s, p);
    if v.entries == [] {
      OccursConcat(s, p, "{", v.blanks + "}");
      OccursConcat(s, p + 1, v.blanks, "}");
      OccursChar(s, p + 1 + |v.blanks|, '}');
      SkipIs(s, p + 1, v.blanks);
    } else {
      OccursConcat(s, p, "{", EntriesText(v.entries));
      EntriesParse(v.entries, s, p + 1);
    }
  }

  lemma {:induction false} EntriesParse(entries: seq<Entry>, s: string, p: nat)
    requires entries != [] && EntriesWellFormed(entries) && Occurs(s, p, EntriesText(entries))
    ensures p <= |s| && At(s, Skip(s, p)) == '"'
    ensures
      var r := ParseMembers(s, Skip(s, p));
      r.Parsed? && r.end == p + |EntriesText(entries)| && EntriesStandFor(entries, r.value)
    decreases entries, 1
  {
    hide Occurs, ParseMembers, ParseMember, ParseValue, Skip, EntriesText, EntryText, Text, Blanks, EntryWellFormed, StandsFor;
    var x, rest := entries[0], entries[1..];
    var mark, more := if rest == [] then '}' else ',', if rest == [] then "" else EntriesText(rest);
    var q := p + |x.before|;
    var f := q + |EntryText(x)|;
    EntriesSplit(entries, mark, more, s, p, q, f);
    EntryParses(x, s, q);
    MembersParts(s, q);
    if rest == [] {
      assert EntriesStandFor(entries, [ParseMember(s, q).value]);
    } else {
      EntriesParse(rest, s, f + 1);
      var ms := ParseMembers(s, Skip(s, f + 1)).value;
      assert ([ParseMember(s, q).value] + ms)[1..] == ms;
    }
  }

  lemma EntriesTextIs(entries: seq<Entry>, mark: char, more: string)
    requires entries != [] && EntriesWellFormed(entries)
    requires mark == (if entries[1..] == [] then '}' else ',')
    requires more == (if entries[1..] == [] then "" else EntriesText(entries[1..]))
    ensures EntriesText(entries) == entries[0].before + (EntryText(entries[0]) + ([mark] + more))
    ensures Blanks(entries[0].before) && EntryText(entries[0]) != "" && EntryText(entries[0])[0] == '"'
  {
    assert EntryText(entries[0])[0] == Quoted(entries[0].name)[0];
    hide Text, WellFormed, Blanks, EntryText;
    if entries[1..] != [] {
      assert "," + EntriesText(entries[1..]) == [mark] + more;
    } else {
      assert "}" == [mark] + more;
    }
  }

  lemma EntriesSplit(entries: seq<Entry>, mark: char, more: string, s: string, p: nat, q: nat, f: nat)
    requires entries != [] && EntriesWellFormed(entries) && Occurs(s, p, EntriesText(entries))
    requires mark == (if entries[1..] == [] then '}' else ',')
    requires more == (if entries[1..] == [] then "" else EntriesText(entries[1..]))
    requires q == p + |entries[0].before| && f == q + |EntryText(entries[0])|
    ensures |EntriesText(entries)| == f + 1 + |more| - p && f < |s| && s[f] == mark && At(s, f) == mark
    ensures Occurs(s, q, EntryText(entries[0])) && Occurs(s, f + 1, more) && Skip(s, p) == q && At(s, q) == '"'
  {
    hide Occurs, EntriesText, EntryText, Text, WellFormed, EntriesWellFormed, EntryWellFormed, Blanks, Skip;
    var x := entries[0];
    var t := EntryText(x);
    EntriesTextIs(entries, mark, more);
    Nothing([mark] + more);
    NoBlanks();
    Places(s, p, x.before, t, "", mark, more);
    BlanksAround(s, p, x.before, t, "");
  }

  lemma NoBlanks()
    ensures Blanks("")
  {
  }

  // The blanks behind the value belong to the entry, but not to what is read as the member.
  lemma {:induction false} EntryParses(x: Entry, s: string, p: nat)
    requires EntryWellFormed(x) && Occurs(s, p, EntryText(x))
    requires p + |EntryText(x)| < |s| && (s[p + |EntryText(x)|] == ',' || s[p + |EntryText(x)|] == '}')
    ensures
      var r := ParseMember(s, p);
      && r.Parsed? && r.value.name == Meaning(x.name) && StandsFor(x.element.value, r.value.value)
      && Skip(s, r.end) == p + |EntryText(x)|
    decreases x, 1
  {
    hide Occurs, ParseMember, ParseString, ParseValue, Skip, Text, EntryText, Blanks, StandsFor, MayFollow, WellFormed, Quoted, Meaning;
    var e := x.element;
    var a := p + |Quoted(x.name)|;
    var b := a + |x.after|;
    var c := b + 1 + |e.before|;
    var d := c + |Text(e.value)|;
    EntrySplit(x, s, p, a, b, c, d);
    NameParses(x.name, s, p);
    ValueParses(e.value, s, c);
    MemberParts(s, p);
  }

  lemma NameParses(us: seq<Unit>, s: string, p: nat)
    requires JsonLiterals.WellFormed(us) && Occurs(s, p, Quoted(us))
    ensures ParseString(s, p) == Parsed(Meaning(us), p + |Quoted(us)|)
  {
    hide Occurs, ParseString, Source, Meaning, Measure;
    ParseStringAgrees(us, s, p);
  }

  lemma EntrySplit(x: Entry, s: string, p: nat, a: nat, b: nat, c: nat, d: nat)
    requires EntryWellFormed(x) && Occurs(s, p, EntryText(x))
    requires p + |EntryText(x)| < |s| && (s[p + |EntryText(x)|] == ',' || s[p + |EntryText(x)|] == '}')
    requires a == p + |Quoted(x.name)| && b == a + |x.after| && c == b + 1 + |x.element.before|
    requires d == c + |Text(x.element.value)|
    ensures Occurs(s, p, Quoted(x.name)) && b < |s| && c <= d <= |s|
    ensures Skip(s, a) == b && At(s, b) == ':' && Skip(s, b + 1) == c && Skip(s, d) == p + |EntryText(x)|
    ensures Occurs(s, c, Text(x.element.value)) && MayFollow(x.element.value, At(s, d))
  {
    hide Occurs, EntryText, Text, WellFormed, EntryWellFormed, Quoted, Blanks, Skip, MayFollow;
    var e := x.element;
    var t := Text(e.value);
    EntryWell(x);
    FirstIs(e.value);
    EntryPlaces(x, s, p, Quoted(x.name), t);
    OccursFirst(s, c, t);
    SkipIs(s, a, x.after);
    SkipIs(s, b + 1, e.before);
    BetweenBlanks(s, d, e.after);
    BlankFollows(e.value, At(s, d));
    SkipIs(s, d, e.after);
  }

  lemma EntryWell(x: Entry)
    requires EntryWellFormed(x)
    ensures Blanks(x.after) && Blanks(x.element.before) && Blanks(x.element.after) && WellFormed(x.element.value)
  {
  }

  lemma EntryPlaces(x: Entry, s: string, p: nat, name: string, value: string)
    requires Occurs(s, p, EntryText(x)) && name == Quoted(x.name) && value == Text(x.element.value)
    ensures
      var a := p + |name|;
      var b := a + |x.after|;
      var c := b + 1 + |x.element.before|;
      var d := c + |value|;
      && Occurs(s, p, name) && Occurs(s, a, x.after) && b < |s| && s[b] == ':' && Occurs(s, b + 1, x.element.before)
      && Occurs(s, c, value) && Occurs(s, d, x.element.after) && d + |x.element.after| == p + |EntryText(x)|
  {
    hide Quoted, Text, Occurs;
    var rest := x.element.before + (value + x.element.after);
    assert EntryText(x) == name + (x.after + (":" + rest));
    hide EntryText;
    OccursConcat(s, p, name, x.after + (":" + rest));
    OccursConcat(s, p + |name|, x.after, ":" + rest);
    var b := p + |name| + |x.after|;
    OccursConcat(s, b, ":", rest);
    OccursChar(s, b, ':');
    OccursConcat(s, b + 1, x.element.before, value + x.element.after);
    OccursConcat(s, b + 1 + |x.element.before|, value, x.element.after);
  }

  // --------------------------------------------------------------------- whole texts

  lemma {:induction false} SkipToEnd(s: string, p: nat)
    requires p <= |s| && Blanks(s[p..])
    ensures Skip(s, p) == |s|
    decreases |s| - p
  {
    if p < |s| {
      assert s[p] == s[p..][0] && s[p + 1..] == s[p..][1..];
      SkipToEnd(s, p + 1);
    }
  }

  // Every text of the grammar, with any blanks before and behind it, is accepted to its end, as
  // the one value that it stands for.
  lemma TextParses(before: string, v: Syntax, after: string)
    requires Blanks(before) && WellFormed(v) && Blanks(after)
    ensures
      var s := before + Text(v) + after;
      var r := Parse(s, true);
      r.Parsed? && r.end == |s| && StandsFor(v, r.value)
  {
    hide ParseValue, Text, Occurs, Skip, StandsFor, Blanks, WellFormed, MayFollow;
    var s := before + Text(v) + after;
    var p := |before|;
    var e := p + |Text(v)|;
    FirstIs(v);
    Enclosed(before, Text(v), after);
    SkipIs(s, 0, before);
    BlankBehind(s, e, after);
    BlankFollows(v, At(s, e));
    ValueParses(v, s, p);
    SkipToEnd(s, e);
  }

  lemma Enclosed(before: string, t: string, after: string)
    requires t != ""
    ensures
      var s := before + t + after;
      var e := |before| + |t|;
      Occurs(s, 0, before) && Occurs(s, |before|, t) && s[e..] == after && At(s, |before|) == t[0]
  {
  }

  lemma BlankBehind(s: string, e: nat, after: string)
    requires e <= |s| && s[e..] == after && Blanks(after)
    ensures At(s, e) <= ' '
  {
    if e < |s| {
      assert s[e] == after[0];
    }
  }
}
