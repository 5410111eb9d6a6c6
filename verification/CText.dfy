// C strings: a text is the sequence of its characters, and reading the position just
// behind the last one yields the terminating NUL.
module CText {
  const NUL: char := 0 as char

  // No character of s ends a C string.
  predicate NulFree(s: string) {
    forall i :: 0 <= i < |s| ==> s[i] != NUL
  }

  predicate IsDigit(c: char) {
    '0' <= c <= '9'
  }

  // *(s+p) for a pointer that has not left the string: the terminator is readable.
  function At(s: string, p: nat): char
    requires p <= |s|
  {
    if p < |s| then s[p] else NUL
  }

  // strncmp(s+p, t, |t|) == 0
  predicate Occurs(s: string, p: nat, t: string) {
    p + |t| <= |s| && forall k :: 0 <= k < |t| ==> s[p + k] == t[k]
  }

  lemma OccursConcat(s: string, p: nat, a: string, b: string)
    ensures Occurs(s, p, a + b) <==> Occurs(s, p, a) && Occurs(s, p + |a|, b)
  {
    if Occurs(s, p, a + b) {
      forall k | 0 <= k < |a| ensures s[p + k] == a[k] {
        assert (a + b)[k] == a[k];
      }
      forall k | 0 <= k < |b| ensures s[p + |a| + k] == b[k] {
        assert (a + b)[|a| + k] == b[k];
      }
    }
  }

  lemma OccursChar(s: string, p: nat, c: char)
    ensures Occurs(s, p, [c]) <==> p < |s| && s[p] == c
  {
    assert [c][0] == c;
  }

  lemma OccursFirst(s: string, p: nat, t: string)
    requires Occurs(s, p, t) && t != []
    ensures p < |s| && s[p] == t[0]
  {
  }

  lemma NulFreeConcat(a: string, b: string)
    requires NulFree(a) && NulFree(b)
    ensures NulFree(a + b)
  {
  }

  // The array holds the C string t: its characters followed by NUL.
  ghost predicate Holds(a: array<char>, t: string)
    reads a
  {
    |t| < a.Length && (forall k :: 0 <= k < |t| ==> a[k] == t[k]) && a[|t|] == NUL
  }

  // strlen
  method StrLen(a: array<char>, ghost t: string) returns (n: nat)
    requires Holds(a, t) && NulFree(t)
    ensures n == |t|
  {
    n := 0;
    while a[n] != NUL
      invariant 0 <= n <= |t|
      decreases |t| - n
    {
      n := n + 1;
    }
  }

  // strcpy(dst+off, src): the characters and the terminator; the bound is checked, nothing else changes.
  method StrCpy(dst: array<char>, off: nat, src: array<char>, ghost t: string)
    requires Holds(src, t) && NulFree(t) && dst != src
    requires off + |t| < dst.Length
    modifies dst
    ensures dst[..off] == old(dst[..off])
    ensures dst[off..off + |t|] == t && dst[off + |t|] == NUL
    ensures dst[off + |t| + 1..] == old(dst[off + |t| + 1..])
  {
    var i := 0;
    while src[i] != NUL
      invariant 0 <= i <= |t|
      invariant forall k :: 0 <= k < off ==> dst[k] == old(dst[k])
      invariant forall k :: 0 <= k < i ==> dst[off + k] == t[k]
      invariant forall k :: off + i <= k < dst.Length ==> dst[k] == old(dst[k])
      decreases |t| - i
    {
      dst[off + i] := src[i];
      i := i + 1;
    }
    dst[off + i] := NUL;
  }

  // A character is appended.
  method Put(out: array<char>, ptr: nat, c: char) returns (ptr': nat)
    requires ptr < out.Length
    modifies out
    ensures ptr' == ptr + 1
    ensures out[..ptr'] == old(out[..ptr]) + [c]
  {
    out[ptr] := c;
    ptr' := ptr + 1;
  }

  // A string is appended, and the pointer goes on to its end.
  method PutBuffer(out: array<char>, ptr: nat, src: array<char>, ghost t: string) returns (ptr': nat)
    requires out != src && Holds(src, t) && NulFree(t)
    requires ptr + |t| < out.Length
    modifies out
    ensures ptr' == ptr + |t|
    ensures out[..ptr'] == old(out[..ptr]) + t
  {
    StrCpy(out, ptr, src, t);
    var n := StrLen(src, t);
    ptr' := ptr + n;
    assert out[..ptr'] == out[..ptr] + out[ptr..ptr'];
  }

  // The text is terminated.
  method Terminate(out: array<char>, ptr: nat, ghost t: string)
    requires ptr < out.Length && out[..ptr] == t
    modifies out
    ensures Holds(out, t) && out[..ptr] == t
  {
    out[ptr] := NUL;
    assert forall k :: 0 <= k < |t| ==> out[k] == out[..ptr][k];
  }

  lemma HoldsFrom(out: array<char>, t: string)
    requires |t| < out.Length && out[..|t|] == t && out[|t|] == NUL
    ensures Holds(out, t)
  {
    assert forall k :: 0 <= k < |t| ==> out[k] == out[..|t|][k];
  }

  // -------------------------------------------------------------------- parts of texts

  lemma Associate(s: string, t: string, u: string)
    ensures s + (t + u) == (s + t) + u
  {
  }

  lemma Nothing(t: string)
    ensures "" + t == t && t + "" == t
  {
  }

  // Two pieces of a text behind each other are one piece.
  lemma Joined(before: string, s: string, i: nat, j: nat, k: nat)
    requires i <= j <= k <= |s|
    ensures before + s[i..k] == before + s[i..j] + s[j..k]
    ensures k == j + 1 ==> s[j..k] == [s[j]]
  {
    assert s[i..j] + s[j..k] == s[i..k];
  }
}
