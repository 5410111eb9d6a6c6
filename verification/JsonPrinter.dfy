// print_value and its helpers as they size and fill their buffers
// (3rdParty/libcjson/cJSON.c:109-119, 300-316, 346-395, 436-505).
module JsonPrinter {
  import opened CText
  import opened Json
  import opened JsonText
  import opened JsonStrings
  import Digits

  // -------------------------------------------------------------------- texts without NUL

  lemma DecimalNulFree(n: nat)
    ensures NulFree(Decimal(n))
  {
  }

  lemma {:induction false} EscapeAllNulFree(s: string)
    requires NulFree(s)
    ensures NulFree(EscapeAll(s))
  {
    if s != [] {
      EscapeAllNulFree(s[1..]);
      NulFreeConcat(Escape(s[0]), EscapeAll(s[1..]));
    }
  }

  lemma {:induction false} TabsNulFree(n: int)
    ensures NulFree(Tabs(n)) && |Tabs(n)| == if n <= 0 then 0 else n
  {
    if n > 0 {
      TabsNulFree(n - 1);
    }
  }

  // No printed text ends early as a C string.
  lemma {:induction false} TextNulFree(v: Json, depth: nat, fmt: bool)
    requires Plain(v)
    ensures NulFree(Text(v, depth, fmt))
    decreases v, 1
  {
    match v
    case Null =>
    case False =>
    case True =>
    case Number(d) => DecimalNulFree(if d.Floor < 0 then -d.Floor else d.Floor);
    case String(s) => EscapeAllNulFree(s);
    case Array(items) =>
      ItemsNulFree(items, depth + 1, fmt);
      ArrayNulFree(v, depth, fmt);
    case Object(members) =>
      MembersNulFree(members, depth + 1, fmt);
      ObjectNulFree(v, depth, fmt);
  }

  lemma ArrayNulFree(v: Json, depth: nat, fmt: bool)
    requires Plain(v) && v.Array? && NulFree(ItemsText(v.items, depth + 1, fmt))
    ensures NulFree(Text(v, depth, fmt))
  {
    hide ItemsText;
  }

  lemma ObjectNulFree(v: Json, depth: nat, fmt: bool)
    requires Plain(v) && v.Object?
    requires PlainMembers(v.members) && NulFree(MembersText(v.members, depth + 1, fmt))
    ensures NulFree(Text(v, depth, fmt))
  {
    hide MembersText, Tabs, Text;
    TabsNulFree(depth);
    TabsNulFree(depth - 1);
    ObjectText(v, depth, fmt);
  }

  lemma {:induction false} ItemsNulFree(items: seq<Json>, depth: nat, fmt: bool)
    requires PlainItems(items)
    ensures NulFree(ItemsText(items, depth, fmt))
    decreases items, 0
  {
    if items != [] {
      TextNulFree(items[0], depth, fmt);
      ItemsNulFree(items[1..], depth, fmt);
    }
  }

  lemma {:induction false} MembersNulFree(members: seq<Member>, depth: nat, fmt: bool)
    requires PlainMembers(members)
    ensures NulFree(MembersText(members, depth, fmt))
    decreases members, 0
  {
    if members != [] {
      var m := members[0];
      TabsNulFree(depth);
      EscapeAllNulFree(m.name);
      TextNulFree(m.value, depth, fmt);
      MembersNulFree(members[1..], depth, fmt);
      assert NulFree(MemberText(m, depth, fmt));
    }
  }

  // -------------------------------------------------------------------- buffers

  // How many characters of the buffer stay unused, as its size is computed.
  function Slack(v: Json, depth: nat, fmt: bool): int
    requires Plain(v)
  {
    match v
    case Number(d) => 20 - |IntText(d.Floor)|
    case Array(items) => if items == [] then 0 else |items| + (if fmt then 4 else 3)
    case Object(members) => if members != [] then 5 else if fmt && depth > 0 then 1 else 0
    case _ => 0
  }

  // The text is in the buffer, which has the computed size.
  ghost predicate Printed(out: array<char>, v: Json, depth: nat, fmt: bool)
    requires Plain(v)
    reads out
  {
    Holds(out, Text(v, depth, fmt)) && out.Length == |Text(v, depth, fmt)| + 1 + Slack(v, depth, fmt)
  }

  // cJSON_strdup
  method StrDup(t: string) returns (out: array<char>)
    requires NulFree(t)
    ensures fresh(out) && Holds(out, t) && out.Length == |t| + 1
  {
    out := new char[|t| + 1](i => if 0 <= i < |t| then t[i] else NUL);
  }

  lemma {:induction false} DecimalLength(n: nat, k: nat)
    requires 0 < k && n < Digits.Pow10(k)
    ensures |Decimal(n)| <= k
    decreases k
  {
    if n >= 10 {
      DecimalLength(n / 10, k - 1);
    }
  }

  // print_number: 21 characters are enough for every "%d".
  method PrintNumber(d: real) returns (out: array<char>)
    requires IsInt(d)
    ensures fresh(out) && Holds(out, IntText(d.Floor)) && out.Length == 21
  {
    var n := d.Floor;
    Digits.TenDigits();
    DecimalLength(if n < 0 then -n else n, 10);
    var t := IntText(n);
    out := new char[21](i => if 0 <= i < |t| then t[i] else NUL);
  }

  // -------------------------------------------------------------------- arrays

  // What is written and what is still to come make up the whole text.
  lemma ItemsTextNext(items: seq<Json>, i: nat, depth: nat, fmt: bool)
    requires PlainItems(items) && i < |items|
    ensures PlainItems(items[i..]) && PlainItems(items[i + 1..]) && Plain(items[i])
    ensures ItemsText(items[i..], depth, fmt)
         == Text(items[i], depth, fmt) + (if i + 1 == |items| then [] else Comma(fmt))
            + ItemsText(items[i + 1..], depth, fmt)
  {
    PlainItemsFrom(items, i);
    assert items[i..][1..] == items[i + 1..];
  }

  lemma {:induction false} PlainItemsFrom(items: seq<Json>, i: nat)
    requires PlainItems(items) && i <= |items|
    ensures PlainItems(items[i..])
  {
    if i > 0 {
      PlainItemsFrom(items[1..], i - 1);
      assert items[1..][i - 1..] == items[i..];
    } else {
      assert items[0..] == items;
    }
  }

  method PrintValue(v: Json, depth: nat, fmt: bool) returns (out: array<char>)
    requires Plain(v)
    ensures fresh(out) && Printed(out, v, depth, fmt)
    decreases v, 2
  {
    match v
    case Null => out := StrDup("null");
    case False => out := StrDup("false");
    case True => out := StrDup("true");
    case Number(d) => out := PrintNumber(d);
    case String(s) => out := PrintString(s);
    case Array(_) => out := PrintArray(v, depth, fmt);
    case Object(_) => out := PrintObject(v, depth, fmt);
  }

  // Each item is printed into a buffer of its own, and the lengths are added up.
  method PrintItems(ghost v: Json, items: seq<Json>, depth: nat, fmt: bool)
    returns (entries: seq<array<char>>, len: nat)
    requires PlainItems(items) && items != [] && v == Array(items)
    ensures fresh(entries) && |entries| == |items|
    ensures forall k :: 0 <= k < |items| ==> Plain(items[k]) && Holds(entries[k], Text(items[k], depth, fmt))
    ensures len == 5 + |ItemsText(items, depth, fmt)| + |items| + (if fmt then 2 else 1)
    decreases v, 0
  {
    hide Text;
    len := 5;
    entries := [];
    var i := 0;
    var f := if fmt then 1 else 0;
    assert items[0..] == items;
    while i < |items|
      invariant 0 <= i <= |items| && |entries| == i
      invariant fresh(entries)
      invariant forall k :: 0 <= k < i ==> Plain(items[k]) && Holds(entries[k], Text(items[k], depth, fmt))
      invariant PlainItems(items[i..])
      invariant len + |ItemsText(items[i..], depth, fmt)|
             == 5 + |ItemsText(items, depth, fmt)| + i + (if i == |items| then f + 1 else 0)
    {
      ItemsTextNext(items, i, depth, fmt);
      PlainItemAt(items, i);
      var ret := PrintValue(items[i], depth, fmt);
      TextNulFree(items[i], depth, fmt);
      var n := StrLen(ret, Text(items[i], depth, fmt));
      entries := entries + [ret];
      len := len + n + 2 + f;
      i := i + 1;
    }
  }

  method PrintArray(v: Json, depth: nat, fmt: bool) returns (out: array<char>)
    requires Plain(v) && v.Array?
    ensures fresh(out) && Printed(out, v, depth, fmt)
    decreases v, 1
  {
    hide Text, ItemsText, Holds;
    var items := v.items;
    ArrayText(v, depth, fmt);
    if items == [] {
      out := StrDup("[]");
      return;
    }
    var entries, len := PrintItems(v, items, depth + 1, fmt);
    out := new char[len];
    var ptr := Put(out, 0, '[');
    Terminate(out, ptr, "[");
    ptr := PutItems(out, ptr, entries, items, depth + 1, fmt);
    ptr := Put(out, ptr, ']');
    assert out[..ptr] == Text(v, depth, fmt);
    Terminate(out, ptr, Text(v, depth, fmt));
  }

  // The texts of the items go one behind the other, with their separators.
  method PutItems(out: array<char>, at: nat, entries: seq<array<char>>, items: seq<Json>, depth: nat, fmt: bool)
    returns (ptr: nat)
    requires PlainItems(items) && items != [] && |entries| == |items|
    requires forall k :: 0 <= k < |items| ==> entries[k] != out
    requires forall k :: 0 <= k < |items| ==> Plain(items[k]) && Holds(entries[k], Text(items[k], depth, fmt))
    requires at + |ItemsText(items, depth, fmt)| < out.Length
    modifies out
    ensures ptr == at + |ItemsText(items, depth, fmt)|
    ensures out[..ptr] == old(out[..at]) + ItemsText(items, depth, fmt)
  {
    hide Text, ItemsText, Holds;
    ghost var all := old(out[..at]) + ItemsText(items, depth, fmt);
    ptr := at;
    var i := 0;
    assert items[0..] == items;
    while i < |items|
      invariant 0 <= i <= |items| && 0 <= ptr
      invariant PlainItems(items[i..])
      invariant ptr + |ItemsText(items[i..], depth, fmt)| == |all|
      invariant out[..ptr] + ItemsText(items[i..], depth, fmt) == all
      invariant forall k :: 0 <= k < |items| ==> Plain(items[k]) && Holds(entries[k], Text(items[k], depth, fmt))
    {
      ItemsTextNext(items, i, depth, fmt);
      ptr := PutItem(out, ptr, entries[i], items, i, depth, fmt, i == |items| - 1);
      i := i + 1;
    }
    NoItems(items[i..], depth, fmt);
    assert out[..ptr] == all;
  }

  lemma NoItems(items: seq<Json>, depth: nat, fmt: bool)
    requires items == []
    ensures ItemsText(items, depth, fmt) == []
  {
  }

  // One item with what separates it from the next.
  method PutItem(out: array<char>, at: nat, entry: array<char>,
                 ghost items: seq<Json>, ghost i: nat, ghost depth: nat, fmt: bool, last: bool)
    returns (ptr: nat)
    requires PlainItems(items) && i < |items| && last == (i == |items| - 1)
    requires PlainItems(items[i..]) && PlainItems(items[i + 1..])
    requires Plain(items[i]) && out != entry && Holds(entry, Text(items[i], depth, fmt))
    requires at + |ItemsText(items[i..], depth, fmt)| < out.Length
    modifies out
    ensures ptr + |ItemsText(items[i + 1..], depth, fmt)| == at + |ItemsText(items[i..], depth, fmt)|
    ensures out[..ptr] + ItemsText(items[i + 1..], depth, fmt) == old(out[..at]) + ItemsText(items[i..], depth, fmt)
  {
    hide Text, ItemsText;
    ItemsTextNext(items, i, depth, fmt);
    TextNulFree(items[i], depth, fmt);
    ptr := PutBuffer(out, at, entry, Text(items[i], depth, fmt));
    if !last {
      ptr := Put(out, ptr, ',');
      if fmt {
        ptr := Put(out, ptr, ' ');
      }
      Terminate(out, ptr, out[..ptr]);
    }
    ghost var sep := if last then [] else Comma(fmt);
    assert out[..ptr] == old(out[..at]) + (Text(items[i], depth, fmt) + sep);
  }

  lemma ArrayText(v: Json, depth: nat, fmt: bool)
    requires Plain(v) && v.Array?
    ensures PlainItems(v.items)
    ensures Text(v, depth, fmt) == "[" + ItemsText(v.items, depth + 1, fmt) + "]"
    ensures v.items == [] ==> Text(v, depth, fmt) == "[]"
  {
  }

  // -------------------------------------------------------------------- objects

  method PutTabs(out: array<char>, at: nat, n: int) returns (ptr: nat)
    requires at + |Tabs(n)| <= out.Length
    modifies out
    ensures ptr == at + |Tabs(n)|
    ensures out[..ptr] == old(out[..at]) + Tabs(n)
  {
    ptr := at;
    var i := 0;
    while i < n
      invariant 0 <= i && (n < 0 || i <= n)
      invariant ptr + |Tabs(n - i)| == at + |Tabs(n)|
      invariant out[..ptr] + Tabs(n - i) == old(out[..at]) + Tabs(n)
    {
      ghost var before := out[..ptr];
      ptr := Put(out, ptr, '\t');
      assert (before + "\t") + Tabs(n - i - 1) == before + ("\t" + Tabs(n - i - 1));
      i := i + 1;
    }
  }

  lemma MembersTextNext(members: seq<Member>, i: nat, depth: nat, fmt: bool)
    requires PlainMembers(members) && i < |members|
    ensures PlainMembers(members[i..]) && PlainMembers(members[i + 1..])
    ensures NulFree(members[i].name) && Plain(members[i].value)
    ensures MembersText(members[i..], depth, fmt)
         == MemberText(members[i], depth, fmt) + MemberEnd(i + 1 == |members|, fmt)
            + MembersText(members[i + 1..], depth, fmt)
  {
    PlainMembersFrom(members, i);
    assert members[i..][1..] == members[i + 1..];
  }

  lemma {:induction false} PlainMembersFrom(members: seq<Member>, i: nat)
    requires PlainMembers(members) && i <= |members|
    ensures PlainMembers(members[i..])
  {
    if i > 0 {
      PlainMembersFrom(members[1..], i - 1);
      assert members[1..][i - 1..] == members[i..];
    } else {
      assert members[0..] == members;
    }
  }

  lemma MemberTextLength(m: Member, depth: nat, fmt: bool)
    requires Plain(m.value)
    ensures |MemberText(m, depth, fmt)|
         == (if fmt then depth + 2 else 1) + |Quote(m.name)| + |Text(m.value, depth, fmt)|
  {
    hide Text, Quote;
    TabsNulFree(depth);
    assert |KeyText(m.name, depth, fmt)| == (if fmt then depth + 2 else 1) + |Quote(m.name)|;
  }

  ghost predicate MembersPrinted(
    members: seq<Member>, names: seq<array<char>>, entries: seq<array<char>>, depth: nat, fmt: bool)
    requires PlainMembers(members)
    requires |names| == |entries| <= |members|
    reads names, entries
  {
    forall k :: 0 <= k < |names| ==>
      && NulFree(members[k].name) && Holds(names[k], Quote(members[k].name))
      && Plain(members[k].value) && Holds(entries[k], Text(members[k].value, depth, fmt))
  }

  lemma MembersPrintedNone(members: seq<Member>, depth: nat, fmt: bool)
    requires PlainMembers(members)
    ensures MembersPrinted(members, [], [], depth, fmt)
  {
  }

  lemma MembersPrintedNext(
    members: seq<Member>, names: seq<array<char>>, entries: seq<array<char>>,
    name: array<char>, entry: array<char>, depth: nat, fmt: bool)
    requires PlainMembers(members) && |names| == |entries| < |members|
    requires MembersPrinted(members, names, entries, depth, fmt)
    requires NulFree(members[|names|].name) && Holds(name, Quote(members[|names|].name))
    requires Plain(members[|names|].value) && Holds(entry, Text(members[|names|].value, depth, fmt))
    ensures MembersPrinted(members, names + [name], entries + [entry], depth, fmt)
  {
    hide Holds, Quote, Text;
  }

  lemma MembersPrintedAt(
    members: seq<Member>, names: seq<array<char>>, entries: seq<array<char>>, k: nat, depth: nat, fmt: bool)
    requires PlainMembers(members) && k < |names| == |entries| <= |members|
    requires MembersPrinted(members, names, entries, depth, fmt)
    ensures NulFree(members[k].name) && Holds(names[k], Quote(members[k].name))
    ensures Plain(members[k].value) && Holds(entries[k], Text(members[k].value, depth, fmt))
  {
    hide Holds, Quote, Text;
  }

  // Each name and each value is printed into a buffer of its own, and the lengths are added up.
  method PrintMembers(ghost v: Json, members: seq<Member>, depth: nat, fmt: bool)
    returns (names: seq<array<char>>, entries: seq<array<char>>, len: nat)
    requires PlainMembers(members) && members != [] && v == Object(members)
    ensures fresh(names) && fresh(entries)
    ensures |names| == |entries| == |members| && MembersPrinted(members, names, entries, depth, fmt)
    ensures len == 8 + |MembersText(members, depth, fmt)| + (if fmt then depth else 0)
    decreases v, 0
  {
    hide Text, Quote, MemberText, MembersText, Holds, MembersPrinted;
    len := 7;
    if fmt {
      len := len + depth;
    }
    names, entries := [], [];
    var i := 0;
    assert members[0..] == members;
    MembersPrintedNone(members, depth, fmt);
    while i < |members|
      invariant 0 <= i <= |members| && |entries| == |names| == i
      invariant fresh(names) && fresh(entries)
      invariant MembersPrinted(members, names, entries, depth, fmt)
      invariant PlainMembers(members[i..])
      invariant len + |MembersText(members[i..], depth, fmt)|
             == 7 + (if fmt then depth else 0) + |MembersText(members, depth, fmt)|
                + (if i == |members| then 1 else 0)
    {
      MembersTextNext(members, i, depth, fmt);
      PlainMemberAt(members, i);
      MemberTextLength(members[i], depth, fmt);
      var str := PrintString(members[i].name);
      var ret := PrintValue(members[i].value, depth, fmt);
      TextNulFree(members[i].value, depth, fmt);
      QuoteNulFree(members[i].name);
      var n := StrLen(ret, Text(members[i].value, depth, fmt));
      var m := StrLen(str, Quote(members[i].name));
      MembersPrintedNext(members, names, entries, str, ret, depth, fmt);
      names, entries := names + [str], entries + [ret];
      len := len + n + m + 2 + if fmt then 2 + depth else 0;
      i := i + 1;
    }
    NoMembers(members[i..], depth, fmt);
  }

  lemma QuoteNulFree(s: string)
    requires NulFree(s)
    ensures NulFree(Quote(s))
  {
    EscapeAllNulFree(s);
  }

  // Indentation, name and colon
  method PutKey(out: array<char>, at: nat, buffer: array<char>, ghost name: string, depth: nat, fmt: bool)
    returns (ptr: nat)
    requires NulFree(name) && out != buffer && Holds(buffer, Quote(name))
    requires at + |KeyText(name, depth, fmt)| < out.Length
    modifies out
    ensures ptr == at + |KeyText(name, depth, fmt)|
    ensures out[..ptr] == old(out[..at]) + KeyText(name, depth, fmt)
  {
    hide Quote, Tabs, Holds, KeyText;
    QuoteNulFree(name);
    KeyTextParts(name, depth, fmt);
    ptr := at;
    if fmt {
      ptr := PutTabs(out, ptr, depth);
    }
    ptr := PutBuffer(out, ptr, buffer, Quote(name));
    ptr := Put(out, ptr, ':');
    if fmt {
      ptr := Put(out, ptr, '\t');
    }
    KeyTextParts(name, depth, fmt);
  }

  lemma KeyTextParts(name: string, depth: nat, fmt: bool)
    ensures KeyText(name, depth, fmt)
         == if fmt then Tabs(depth) + Quote(name) + [':'] + ['\t'] else Quote(name) + [':']
  {
    hide Quote, Tabs;
  }

  // Comma and line end
  method PutMemberEnd(out: array<char>, at: nat, last: bool, fmt: bool) returns (ptr: nat)
    requires at + |MemberEnd(last, fmt)| < out.Length
    modifies out
    ensures ptr == at + |MemberEnd(last, fmt)|
    ensures out[..ptr] == old(out[..at]) + MemberEnd(last, fmt)
  {
    hide Holds;
    ptr := at;
    if !last {
      ptr := Put(out, ptr, ',');
    }
    if fmt {
      ptr := Put(out, ptr, '\n');
    }
    Terminate(out, ptr, out[..ptr]);
  }

  // One member with what ends it, from ptr on.
  method PutMember(out: array<char>, at: nat, name: array<char>, entry: array<char>,
                   ghost m: Member, depth: nat, last: bool, fmt: bool)
    returns (ptr: nat)
    requires NulFree(m.name) && Plain(m.value)
    requires out != name && out != entry
    requires Holds(name, Quote(m.name)) && Holds(entry, Text(m.value, depth, fmt))
    requires at + |MemberText(m, depth, fmt)| + |MemberEnd(last, fmt)| < out.Length
    modifies out
    ensures ptr == at + |MemberText(m, depth, fmt)| + |MemberEnd(last, fmt)|
    ensures out[..ptr] == old(out[..at]) + (MemberText(m, depth, fmt) + MemberEnd(last, fmt))
  {
    hide Text, Quote, KeyText, Holds, MemberEnd;
    TextNulFree(m.value, depth, fmt);
    ptr := PutKey(out, at, name, m.name, depth, fmt);
    ptr := PutBuffer(out, ptr, entry, Text(m.value, depth, fmt));
    ptr := PutMemberEnd(out, ptr, last, fmt);
  }

  lemma ObjectText(v: Json, depth: nat, fmt: bool)
    requires Plain(v) && v.Object?
    ensures PlainMembers(v.members)
    ensures v.members != [] ==>
      Text(v, depth, fmt) == "{" + (if fmt then "\n" else "") + MembersText(v.members, depth + 1, fmt)
                             + (if fmt then Tabs(depth) else "") + "}"
    ensures v.members == [] ==> Text(v, depth, fmt) == "{" + (if fmt then "\n" + Tabs(depth - 1) else "") + "}"
  {
  }

  method PrintEmptyObject(ghost v: Json, depth: nat, fmt: bool) returns (out: array<char>)
    requires v == Object([])
    ensures fresh(out) && Printed(out, v, depth, fmt)
  {
    hide Text, Tabs;
    ObjectText(v, depth, fmt);
    TabsNulFree(depth - 1);
    out := new char[if fmt then depth + 4 else 3];
    var ptr := Put(out, 0, '{');
    if fmt {
      ptr := Put(out, ptr, '\n');
      ptr := PutTabs(out, ptr, depth - 1);
    }
    ptr := Put(out, ptr, '}');
    Terminate(out, ptr, Text(v, depth, fmt));
  }

  method PrintObject(v: Json, depth: nat, fmt: bool) returns (out: array<char>)
    requires Plain(v) && v.Object?
    ensures fresh(out) && Printed(out, v, depth, fmt)
    decreases v, 1
  {
    hide Text, MemberText, MembersText, Tabs, Holds, MembersPrinted, MemberEnd;
    var members := v.members;
    ObjectText(v, depth, fmt);
    if members == [] {
      out := PrintEmptyObject(v, depth, fmt);
      return;
    }
    var names, entries, len := PrintMembers(v, members, depth + 1, fmt);
    TabsNulFree(depth);
    out := new char[len];
    var ptr := PutOpen(out, fmt);
    ptr := PutMembers(out, ptr, names, entries, members, depth + 1, fmt);
    PutClose(out, ptr, depth, fmt, Text(v, depth, fmt));
  }

  method PutOpen(out: array<char>, fmt: bool) returns (ptr: nat)
    requires out.Length > 2
    modifies out
    ensures ptr == |Open(fmt)| && out[..ptr] == Open(fmt)
  {
    ptr := Put(out, 0, '{');
    if fmt {
      ptr := Put(out, ptr, '\n');
    }
    Terminate(out, ptr, Open(fmt));
  }

  function Open(fmt: bool): string {
    "{" + (if fmt then "\n" else "")
  }

  method PutClose(out: array<char>, at: nat, depth: nat, fmt: bool, ghost t: string)
    requires at + (if fmt then depth else 0) + 1 < out.Length
    requires t == out[..at] + (if fmt then Tabs(depth) else "") + "}"
    modifies out
    ensures Holds(out, t)
  {
    hide Tabs;
    TabsNulFree(depth);
    var ptr := at;
    if fmt {
      ptr := PutTabs(out, ptr, depth);
    }
    ptr := Put(out, ptr, '}');
    assert out[..ptr] == t;
    Terminate(out, ptr, t);
  }

  // Names and values go one behind the other, with their separators and tabs.
  method PutMembers(out: array<char>, at: nat, names: seq<array<char>>, entries: seq<array<char>>,
                    members: seq<Member>, depth: nat, fmt: bool)
    returns (ptr: nat)
    requires PlainMembers(members) && |names| == |entries| == |members|
    requires MembersPrinted(members, names, entries, depth, fmt)
    requires forall k :: 0 <= k < |members| ==> names[k] != out && entries[k] != out
    requires at + |MembersText(members, depth, fmt)| < out.Length
    modifies out
    ensures ptr == at + |MembersText(members, depth, fmt)|
    ensures out[..ptr] == old(out[..at]) + MembersText(members, depth, fmt)
  {
    hide Text, MemberText, MembersText, Holds, MembersPrinted, MemberEnd;
    ghost var all := old(out[..at]) + MembersText(members, depth, fmt);
    ptr := at;
    var i := 0;
    assert members[0..] == members;
    while i < |members|
      invariant 0 <= i <= |members| && 0 <= ptr
      invariant PlainMembers(members[i..])
      invariant ptr + |MembersText(members[i..], depth, fmt)| == at + |MembersText(members, depth, fmt)|
      invariant out[..ptr] + MembersText(members[i..], depth, fmt) == all
      invariant MembersPrinted(members, names, entries, depth, fmt)
    {
      MembersTextNext(members, i, depth, fmt);
      MembersPrintedAt(members, names, entries, i, depth, fmt);
      ghost var before := out[..ptr];
      ptr := PutMember(out, ptr, names[i], entries[i], members[i], depth, i == |members| - 1, fmt);
      ghost var one := MemberText(members[i], depth, fmt) + MemberEnd(i == |members| - 1, fmt);
      assert (before + one) + MembersText(members[i + 1..], depth, fmt)
          == before + (one + MembersText(members[i + 1..], depth, fmt));
      i := i + 1;
    }
    NoMembers(members[i..], depth, fmt);
  }

  lemma NoMembers(members: seq<Member>, depth: nat, fmt: bool)
    requires members == []
    ensures MembersText(members, depth, fmt) == []
  {
  }
}
