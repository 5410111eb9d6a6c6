// The string routines of cJSON as they work on buffers: print_string_ptr and parse_string
// (3rdParty/libcjson/cJSON.c:138-246).
module JsonStrings {
  import opened Bits
  import opened CText
  import opened JsonText
  import opened JsonGrammar
  import opened JsonLiterals

  // One character of the string in its printed form; sprintf leaves a terminator behind the
  // five characters it writes.
  method PutEscape(out: array<char>, at: nat, token: char) returns (at': nat)
    requires token != NUL
    requires at + |Escape(token)| < out.Length
    modifies out
    ensures at' == at + |Escape(token)|
    ensures out[at..at'] == Escape(token)
    ensures out[..at] == old(out[..at])
  {
    if token >= ' ' && token != '"' && token != '\\' {
      out[at] := token;
      at' := at + 1;
    } else {
      out[at] := '\\';
      at' := at + 1;
      if HasShortForm(token) {
        out[at'] := if token == BACKSPACE then 'b' else if token == FORMFEED then 'f'
                    else if token == '\n' then 'n' else if token == '\r' then 'r'
                    else if token == '\t' then 't' else token;
        at' := at' + 1;
      } else {
        out[at'], out[at' + 1], out[at' + 2] := 'u', '0', '0';
        out[at' + 3], out[at' + 4] := Digit(token as int / 16), Digit(token as int % 16);
        out[at' + 5] := NUL;
        at' := at' + 5;
      }
    }
  }

  // The first pass of print_string_ptr counts the characters the second one writes.
  method MeasureEscapes(str: string) returns (len: nat)
    requires NulFree(str)
    ensures len == |EscapeAll(str)|
  {
    var ptr := 0;
    len := 0;
    while At(str, ptr) != NUL
      invariant 0 <= ptr <= |str|
      invariant |EscapeAll(str)| == len + |EscapeAll(str[ptr..])|
      decreases |str| - ptr
    {
      var token := str[ptr];
      assert str[ptr..][1..] == str[ptr + 1..];
      len := len + 1;
      if HasShortForm(token) {
        len := len + 1;
      } else if token < ' ' {
        len := len + 5;
      }
      ptr := ptr + 1;
    }
  }

  lemma EscapeAllNext(str: string, ptr: nat, written: string)
    requires ptr < |str|
    ensures EscapeAll(str[ptr..]) == Escape(str[ptr]) + EscapeAll(str[ptr + 1..])
    ensures written + EscapeAll(str[ptr..]) == (written + Escape(str[ptr])) + EscapeAll(str[ptr + 1..])
  {
    assert str[ptr..][1..] == str[ptr + 1..];
  }

  // print_string_ptr: the buffer is sized by the first pass and filled exactly by the second.
  method PrintString(str: string) returns (out: array<char>)
    requires NulFree(str)
    ensures fresh(out)
    ensures Holds(out, Quote(str))
    ensures out.Length == |Quote(str)| + 1
  {
    hide Escape;
    var len := MeasureEscapes(str);
    out := new char[len + 3];
    out[0] := '"';
    var ptr2 := 1;
    var ptr := 0;
    assert out[..1] == "\"" && str[0..] == str;
    while At(str, ptr) != NUL
      invariant 0 <= ptr <= |str|
      invariant 1 <= ptr2 && ptr2 + |EscapeAll(str[ptr..])| == len + 1
      invariant out[..ptr2] + EscapeAll(str[ptr..]) == "\"" + EscapeAll(str)
      decreases |str| - ptr
    {
      EscapeAllNext(str, ptr, out[..ptr2]);
      ghost var before := out[..ptr2];
      var at := ptr2;
      ptr2 := PutEscape(out, ptr2, str[ptr]);
      assert out[..ptr2] == out[..at] + out[at..ptr2];
      ptr := ptr + 1;
    }
    assert str[ptr..] == [];
    out[ptr2] := '"';
    out[ptr2 + 1] := NUL;
    assert out[..ptr2 + 1] == Quote(str);
    assert forall k :: 0 <= k < |Quote(str)| ==> out[k] == out[..ptr2 + 1][k];
  }

  // -------------------------------------------------------------------- UTF-8

  lemma SecondBit(q: nat)
    ensures And(Or(q, 2), 2) == 2
  {
    OrStep(q, 2);
    OrStep(q / 2, 1);
    AndStep(Or(q, 2), 2);
    AndStep(Or(q, 2) / 2, 1);
    AndZero(Or(q, 2) / 2 / 2);
  }

  lemma OrZero(r: nat)
    ensures Or(r, 0) == r
  {
  }

  // (uc | 0x80) & 0xBF
  lemma TailByte(uc: nat)
    ensures And(Or(uc, 0x80), 0xBF) == 0x80 + uc % 0x40
  {
    hide And, Or, Pow2;
    Pow2Values();
    var q, r := uc / 0x40, uc % 0x40;
    OrAppend(q, r, 2, 0, 6);
    OrZero(r);
    AndAppend(Or(q, 2), r, 2, 0x3F, 6);
    AndOnes(r, 6);
    SecondBit(q);
  }

  // uc | firstByteMark[len], where the mark has its low bits free
  lemma LeadByte(uc: nat)
    ensures Or(uc, 0) == uc
    ensures uc < 0x20 ==> Or(uc, 0xC0) == 0xC0 + uc
    ensures uc < 0x10 ==> Or(uc, 0xE0) == 0xE0 + uc
    ensures uc < 0x10 ==> Or(uc, 0xF0) == 0xF0 + uc
  {
    Pow2Values();
    if uc < 0x20 { OrAppend(0, uc, 6, 0, 5); }
    if uc < 0x10 {
      OrAppend(0, uc, 14, 0, 4);
      OrAppend(0, uc, 15, 0, 4);
    }
  }

  // The low ten bits of both halves, shifted and joined, are the offset of the code point.
  lemma PairBits(uc: int, uc2: int)
    requires HighSurrogate(uc) && LowSurrogate(uc2)
    ensures 0x10000 + Or(Shl(And(uc, 0x3FF), 10), And(uc2, 0x3FF)) == Pair(uc, uc2)
  {
    hide And, Or, Pow2;
    Pow2Values();
    AndMask(uc, 10);
    AndMask(uc2, 10);
    assert Shl(And(uc, 0x3FF), 10) == Pow2(10) * (uc % 0x400);
    OrDisjoint(uc % 0x400, uc2 % 0x400, 10);
  }

  function FirstByteMark(len: nat): nat
    requires 1 <= len <= 4
  {
    [0x00, 0xC0, 0xE0, 0xF0][len - 1]
  }

  // The last six bits of what is left go into a tail byte in front of those written.
  method PutTail(out: array<char>, ptr2: nat, uc: nat) returns (ptr2': nat, uc': nat)
    requires 0 < ptr2 <= out.Length
    modifies out
    ensures ptr2' == ptr2 - 1 && uc' == uc / 0x40
    ensures out[ptr2'] == (0x80 + uc % 0x40) as char
    ensures forall k :: 0 <= k < out.Length && k != ptr2' ==> out[k] == old(out[k])
  {
    hide And, Or;
    Pow2Values();
    TailByte(uc);
    ptr2' := ptr2 - 1;
    out[ptr2'] := And(Or(uc, 0x80), 0xBF) as char;
    uc' := Shr(uc, 6);
  }

  // The encoding with its bytes obtained by repeated shifts.
  lemma Utf8Shifted(u: int, len: nat)
    requires 0 <= u < 0x110000
    requires len == if u < 0x80 then 1 else if u < 0x800 then 2 else if u < 0x10000 then 3 else 4
    ensures len == |Utf8(u)|
    ensures len == 1 ==> Utf8(u) == [u as char]
    ensures len == 2 ==> u / 0x40 < 0x20 && Utf8(u) == [(0xC0 + u / 0x40) as char, (0x80 + u % 0x40) as char]
    ensures len == 3 ==>
      u / 0x40 / 0x40 < 0x10 &&
      Utf8(u) == [(0xE0 + u / 0x40 / 0x40) as char, (0x80 + u / 0x40 % 0x40) as char, (0x80 + u % 0x40) as char]
    ensures len == 4 ==>
      u / 0x40 / 0x40 / 0x40 < 0x10 &&
      Utf8(u) == [(0xF0 + u / 0x40 / 0x40 / 0x40) as char, (0x80 + u / 0x40 / 0x40 % 0x40) as char,
                  (0x80 + u / 0x40 % 0x40) as char, (0x80 + u % 0x40) as char]
  {
    assert u / 0x1000 == u / 0x40 / 0x40 && u / 0x40000 == u / 0x40 / 0x40 / 0x40;
  }

  // The encoding is written from its last byte to its first.
  method PutUtf8(out: array<char>, at: nat, u: int) returns (at': nat)
    requires 0 <= u < 0x110000
    requires at + |Utf8(u)| <= out.Length
    modifies out
    ensures at' == at + |Utf8(u)|
    ensures out[at..at'] == Utf8(u)
    ensures forall k :: 0 <= k < out.Length && !(at <= k < at') ==> out[k] == old(out[k])
  {
    hide And, Or, Utf8;
    Utf8Shifted(u, if u < 0x80 then 1 else if u < 0x800 then 2 else if u < 0x10000 then 3 else 4);
    var uc: nat := u;
    var len := if uc < 0x80 then 1 else if uc < 0x800 then 2 else if uc < 0x10000 then 3 else 4;
    var ptr2 := at + len;
    if len >= 4 { ptr2, uc := PutTail(out, ptr2, uc); }
    if len >= 3 { ptr2, uc := PutTail(out, ptr2, uc); }
    if len >= 2 { ptr2, uc := PutTail(out, ptr2, uc); }
    LeadByte(uc);
    ptr2 := ptr2 - 1;
    out[ptr2] := Or(uc, FirstByteMark(len)) as char;
    at' := ptr2 + len;
    Utf8Shifted(u, len);
    forall k | 0 <= k < len ensures out[at..at'][k] == Utf8(u)[k] {
      assert out[at..at'][k] == out[at + k];
    }
    assert out[at..at'] == Utf8(u);
  }

  // -------------------------------------------------------------------- parse_string

  // Every complete literal has a defined result.
  lemma CompleteIsDefined(b: string, s: string, p: nat)
    requires Complete(b)
    requires Occurs(s, p, "\"" + (b + "\""))
    ensures ParseString(s, p).Parsed? && ParseString(s, p).end == p + |b| + 2
  {
    hide ParseString, Occurs, Complete;
    var us := Units(b);
    ParseStringAgrees(us, s, p);
  }

  // The first pass.
  method MeasureString(s: string, p: nat) returns (len: nat)
    requires NulFree(s) && Measure(s, p).Parsed?
    ensures len == Measure(s, p).value
  {
    var ptr := p;
    len := 0;
    while At(s, ptr) != '"' && At(s, ptr) != NUL
      invariant ptr <= |s|
      invariant Measure(s, ptr).Parsed? && len + Measure(s, ptr).value == Measure(s, p).value
      decreases |s| - ptr
    {
      len := len + 1;
      ptr := ptr + 1;
      if s[ptr - 1] == '\\' {
        ptr := ptr + 1;
      }
    }
  }

  // The value of a hexadecimal digit is added.
  method AddHex(c: char, h: nat) returns (ok: bool, h': nat)
    ensures ok <==> IsHex(c)
    ensures ok ==> h' == h + HexDigit(c)
  {
    ok, h' := true, h;
    if '0' <= c <= '9' {
      h' := h' + (c as int - '0' as int);
    } else if 'A' <= c <= 'F' {
      h' := h' + 10 + (c as int - 'A' as int);
    } else if 'a' <= c <= 'f' {
      h' := h' + 10 + (c as int - 'a' as int);
    } else {
      ok := false;
    }
  }

  // parse_hex4: four digits, each but the last followed by a shift.  It does not look behind
  // the first character that is no digit, so it stays within the text.
  method ParseHex4(s: string, str: nat) returns (h: nat)
    requires str <= |s|
    ensures h == Hex4(s, str)
  {
    Pow2Values();
    hide Pow2;
    var p, ok := str, true;
    ok, h := AddHex(At(s, p), 0);
    if !ok { return 0; }
    h, p := Shl(h, 4), p + 1;
    ok, h := AddHex(At(s, p), h);
    if !ok { return 0; }
    h, p := Shl(h, 4), p + 1;
    ok, h := AddHex(At(s, p), h);
    if !ok { return 0; }
    h, p := Shl(h, 4), p + 1;
    ok, h := AddHex(At(s, p), h);
    if !ok { return 0; }
    assert forall k :: str <= k < str + 4 ==> IsHex(s[k]);
  }

  // One escape of the second pass, ptr at its letter: what it denotes is written at ptr2.
  method PutDecoded(s: string, ptr: nat, out: array<char>, ptr2: nat) returns (ptr': nat, ptr2': nat)
    requires NulFree(s) && ptr < |s|
    requires ptr2 + |DecodeEscape(s, ptr).0| <= out.Length
    modifies out
    ensures ptr' == DecodeEscape(s, ptr).1
    ensures ptr2' == ptr2 + |DecodeEscape(s, ptr).0|
    ensures out[ptr2..ptr2'] == DecodeEscape(s, ptr).0
    ensures forall k :: 0 <= k < out.Length && !(ptr2 <= k < ptr2') ==> out[k] == old(out[k])
  {
    hide Utf8, Hex4, And, Or, Shl;
    ptr', ptr2' := ptr, ptr2;
    match s[ptr'] {
      case 'u' =>
        var uc := ParseHex4(s, ptr' + 1);
        ptr' := ptr' + 4;
        if !(0xDC00 <= uc <= 0xDFFF || uc == 0) {
          if 0xD800 <= uc <= 0xDBFF {
            if At(s, ptr' + 1) == '\\' && At(s, ptr' + 2) == 'u' {
              var uc2 := ParseHex4(s, ptr' + 3);
              ptr' := ptr' + 6;
              if !(uc2 < 0xDC00 || uc2 > 0xDFFF) {
                PairBits(uc, uc2);
                uc := 0x10000 + Or(Shl(And(uc, 0x3FF), 10), And(uc2, 0x3FF));
                ptr2' := PutUtf8(out, ptr2', uc);
              }
            }
          } else {
            ptr2' := PutUtf8(out, ptr2', uc);
          }
        }
      case 'b' =>
        out[ptr2'] := 8 as char;
        ptr2' := ptr2' + 1;
      case 'f' =>
        out[ptr2'] := 12 as char;
        ptr2' := ptr2' + 1;
      case 'n' =>
        out[ptr2'] := '\n';
        ptr2' := ptr2' + 1;
      case 'r' =>
        out[ptr2'] := '\r';
        ptr2' := ptr2' + 1;
      case 't' =>
        out[ptr2'] := '\t';
        ptr2' := ptr2' + 1;
      case c =>
        out[ptr2'] := c;
        ptr2' := ptr2' + 1;
    }
    ptr' := ptr' + 1;
  }

  lemma Passes(s: string, p: nat)
    requires p <= |s| && !ParseString(s, p).Undefined?
    ensures At(s, p) != '"' ==> ParseString(s, p) == Failed(p)
    ensures At(s, p) == '"' ==>
      && Measure(s, p + 1).Parsed? && Decode(s, p + 1).Parsed?
      && var all := Decode(s, p + 1);
         && |all.value| <= Measure(s, p + 1).value
         && ParseString(s, p) == Parsed(all.value, if all.end < |s| then all.end + 1 else all.end)
  {
    hide Measure, Decode;
  }

  // One round of the second pass
  method PutNext(s: string, ptr: nat, out: array<char>, ptr2: nat) returns (ptr': nat, ptr2': nat)
    requires NulFree(s) && ptr < |s| && s[ptr] != '"' && Decode(s, ptr).Parsed?
    requires ptr2 + |Decode(s, ptr).value| <= out.Length
    modifies out
    ensures ptr < ptr' <= |s| && Decode(s, ptr').Parsed? && Decode(s, ptr').end == Decode(s, ptr).end
    ensures ptr2' + |Decode(s, ptr').value| == ptr2 + |Decode(s, ptr).value|
    ensures out[..ptr2'] + Decode(s, ptr').value == old(out[..ptr2]) + Decode(s, ptr).value
  {
    hide DecodeEscape, Decode;
    DecodeUnfold(s, ptr);
    ghost var written := out[..ptr2];
    if s[ptr] != '\\' {
      ptr2' := Put(out, ptr2, s[ptr]);
      ptr' := ptr + 1;
    } else {
      ptr', ptr2' := PutDecoded(s, ptr + 1, out, ptr2);
      assert out[..ptr2'] == written + out[ptr2..ptr2'];
    }
    ghost var chars := out[ptr2..ptr2'];
    assert out[..ptr2'] == written + chars;
    assert (written + chars) + Decode(s, ptr').value == written + (chars + Decode(s, ptr').value);
  }

  // The second pass.
  method DecodeString(s: string, p: nat, out: array<char>) returns (end: nat)
    requires NulFree(s) && Decode(s, p).Parsed?
    requires |Decode(s, p).value| < out.Length
    modifies out
    ensures end == Decode(s, p).end
    ensures Holds(out, Decode(s, p).value)
  {
    hide DecodeEscape, Holds, Decode;
    var ptr, ptr2 := p, 0;
    ghost var all := Decode(s, p);
    DecodeInside(s, p);
    while At(s, ptr) != '"' && At(s, ptr) != NUL
      invariant ptr <= |s| && 0 <= ptr2
      invariant Decode(s, ptr).Parsed? && Decode(s, ptr).end == all.end
      invariant ptr2 + |Decode(s, ptr).value| == |all.value|
      invariant out[..ptr2] + Decode(s, ptr).value == all.value
      decreases |s| - ptr
    {
      ptr, ptr2 := PutNext(s, ptr, out, ptr2);
    }
    DecodeInside(s, ptr);
    Terminate(out, ptr2, all.value);
    end := ptr;
  }

  lemma DecodeInside(s: string, p: nat)
    requires Decode(s, p).Parsed?
    ensures p <= |s| && (At(s, p) == '"' || p == |s| ==> Decode(s, p) == Parsed([], p))
  {
  }

  // parse_string: null and the error position, or a buffer with the decoded string and the
  // position behind the literal.
  method ParseStringBuffer(s: string, p: nat) returns (out: array?<char>, end: nat)
    requires NulFree(s) && p <= |s| && !ParseString(s, p).Undefined?
    ensures out == null ==> ParseString(s, p) == Failed(end)
    ensures out != null ==>
      && fresh(out) && ParseString(s, p).Parsed? && end == ParseString(s, p).end
      && Holds(out, ParseString(s, p).value)
      && out.Length == Measure(s, p + 1).value + 1
  {
    hide ParseString, Measure, Decode, Holds;
    Passes(s, p);
    if At(s, p) != '"' {
      return null, p;
    }
    var len := MeasureString(s, p + 1);
    var buffer := new char[len + 1];
    end := DecodeString(s, p + 1, buffer);
    if At(s, end) == '"' {
      end := end + 1;
    }
    out := buffer;
  }

  // A decoded string holds no NUL, so it is a C string.
  lemma {:induction false} DecodedNulFree(s: string, p: nat)
    requires NulFree(s) && Decode(s, p).Parsed?
    ensures NulFree(Decode(s, p).value)
    decreases |s| - p
  {
    if p < |s| && s[p] != '"' {
      DecodeUnfold(s, p);
      var (chars, next) := if s[p] == '\\' then DecodeEscape(s, p + 1) else ([s[p]], p + 1);
      DecodedNulFree(s, next);
      if s[p] == '\\' {
        EscapeNulFree(s, p + 1);
      }
      NulFreeConcat(chars, Decode(s, next).value);
    }
  }

  lemma EscapeNulFree(s: string, p: nat)
    requires NulFree(s) && p < |s|
    ensures NulFree(DecodeEscape(s, p).0)
  {
    hide Hex4;
  }
}
