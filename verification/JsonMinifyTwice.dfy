// Minifying what has been minified (3rdParty/libcjson/cJSON.c:579-594).
module JsonMinifyTwice {
  import opened CText
  import opened JsonGrammar
  import opened JsonMinifyParse
  import M = JsonMinify

  predicate OpensComment(t: string) {
    t != [] && (t[0] == '/' || t[0] == '*')
  }

  // No slash that is kept from p on comes to stand in front of a character that makes it the
  // beginning of a comment.
  predicate Settled(s: string, p: nat)
    decreases |s| - p
  {
    if p >= |s| then true
    else if M.IsBlank(s[p]) then Settled(s, p + 1)
    else if s[p] == '/' && At(s, p + 1) == '/' then Settled(s, M.LineEnd(s, p))
    else if s[p] == '/' && At(s, p + 1) == '*' then Settled(s, M.CommentEnd(s, p) + 2)
    else if s[p] == '"' then Settled(s, M.LiteralEnd(s, p + 1))
    else
      && (s[p] == '/' && M.Minify(s, p + 1).Some? ==> !OpensComment(M.Minify(s, p + 1).text))
      && Settled(s, p + 1)
  }

  // Minified text is never longer.
  lemma {:induction false} NotLonger(s: string, p: nat)
    requires M.Minify(s, p).Some?
    ensures p <= |s| && |M.Minify(s, p).text| <= |s| - p
    decreases |s| - p
  {
    if p < |s| {
      if M.IsBlank(s[p]) {
        NotLonger(s, p + 1);
      } else if s[p] == '/' && At(s, p + 1) == '/' {
        NotLonger(s, M.LineEnd(s, p));
      } else if s[p] == '/' && At(s, p + 1) == '*' {
        NotLonger(s, M.CommentEnd(s, p) + 2);
      } else {
        NotLonger(s, if s[p] == '"' then M.LiteralEnd(s, p + 1) else p + 1);
      }
    }
  }

  // A literal ends at the same place in both texts.
  lemma {:induction false} LiteralEndLocal(s: string, p: nat, m: string, k: nat, n: nat, a: nat)
    requires SameLiteral(s, p, m, k, n) && a <= n && M.LiteralEnd(s, p + a) == p + n + 1
    ensures M.LiteralEnd(m, k + a) == k + n + 1
    decreases n - a
  {
    CharLocal(s, p, m, k, n, a);
    LiteralWithin(s, p, m, k, n);
    hide SameLiteral;
    if s[p + a] != '"' {
      LiteralEndLocal(s, p, m, k, n, a + if s[p + a] == '\\' then 2 else 1);
    }
  }

  // A comment loses at least its two marks.
  lemma CommentShrinks(m: string, k: nat)
    requires k + 1 < |m| && m[k] == '/' && (m[k + 1] == '/' || m[k + 1] == '*')
    ensures M.Minify(m, k) != M.Some(m[k..])
  {
    if M.Minify(m, k).Some? {
      if m[k + 1] == '/' {
        assert M.LineEnd(m, k) > k;
        NotLonger(m, M.LineEnd(m, k));
      } else {
        NotLonger(m, M.CommentEnd(m, k) + 2);
      }
    }
  }

  // A piece that is kept again
  lemma KeptAgain(m: string, k: nat, j: nat)
    requires k < j <= |m| && !M.IsBlank(m[k])
    requires m[k] == '/' ==> k + 1 == |m| || (m[k + 1] != '/' && m[k + 1] != '*')
    requires j == if m[k] == '"' then M.LiteralEnd(m, k + 1) else k + 1
    ensures M.Minify(m, k) == M.Some(m[k..]) <==> M.Minify(m, j) == M.Some(m[j..])
  {
    assert m[k..] == m[k..j] + m[j..];
    if M.Minify(m, j).Some? {
      var rest := M.Minify(m, j).text;
      assert M.Minify(m, k) == M.Some(m[k..j] + rest);
      assert (m[k..j] + rest)[j - k..] == rest && m[k..][j - k..] == m[j..];
    }
  }

  // The part m[k..] of a minified text, which is what is left of s from p on, stays as it is
  // exactly if the kept slashes open no comments.
  lemma {:induction false} TwiceFrom(s: string, p: nat, m: string, k: nat)
    requires p <= |s| && k <= |m| && M.Minify(s, p) == M.Some(m[k..])
    ensures M.Minify(m, k) == M.Some(m[k..]) <==> Settled(s, p)
    decreases |s| - p
  {
    if p == |s| {
      assert |m[k..]| == 0;
    } else if M.IsBlank(s[p]) {
      TwiceFrom(s, p + 1, m, k);
    } else if s[p] == '/' && At(s, p + 1) == '/' {
      TwiceFrom(s, M.LineEnd(s, p), m, k);
    } else if s[p] == '/' && At(s, p + 1) == '*' {
      NotLonger(s, M.CommentEnd(s, p) + 2);
      TwiceFrom(s, M.CommentEnd(s, p) + 2, m, k);
    } else {
      PieceTwice(s, p, m, k);
    }
  }

  lemma {:induction false} PieceTwice(s: string, p: nat, m: string, k: nat)
    requires p < |s| && k <= |m| && M.Minify(s, p) == M.Some(m[k..]) && !M.IsBlank(s[p])
    requires s[p] == '/' ==> At(s, p + 1) != '/' && At(s, p + 1) != '*'
    ensures M.Minify(m, k) == M.Some(m[k..]) <==> Settled(s, p)
    decreases |s| - p, 0
  {
    hide M.LineEnd, M.CommentEnd, M.LiteralEnd;
    var q := if s[p] == '"' then M.LiteralEnd(s, p + 1) else p + 1;
    var j := k + (q - p);
    PieceSplit(s, p, m, k, q);
    if s[p] == '"' {
      var n := q - p - 2;
      EndsWithQuote(s, p + 1);
      SliceSame(s, p, m, k, n);
      LiteralEndLocal(s, p + 1, m, k + 1, n, 0);
    }
    assert OpensComment(m[j..]) <==> j < |m| && (m[j] == '/' || m[j] == '*');
    if s[p] == '/' && OpensComment(m[j..]) {
      CommentShrinks(m, k);
    } else {
      KeptAgain(m, k, j);
      TwiceFrom(s, q, m, j);
    }
  }

  lemma PieceSplit(s: string, p: nat, m: string, k: nat, q: nat)
    requires p < q && p < |s| && k <= |m| && M.Minify(s, p) == M.Some(m[k..]) && !M.IsBlank(s[p])
    requires s[p] == '/' ==> At(s, p + 1) != '/' && At(s, p + 1) != '*'
    requires q == if s[p] == '"' then M.LiteralEnd(s, p + 1) else p + 1
    ensures q <= |s| && k + (q - p) <= |m| && m[k..k + (q - p)] == s[p..q] && m[k] == s[p]
    ensures M.Minify(s, q) == M.Some(m[k + (q - p)..])
  {
    var rest := M.Minify(s, q).text;
    var j := k + (q - p);
    assert m[k..] == s[p..q] + rest;
    assert m[k..][..q - p] == s[p..q] && m[k..][q - p..] == rest;
    assert m[j..] == m[k..][q - p..];
    assert m[k] == m[k..][0];
  }

  // Minifying twice is minifying once exactly if no slash outside the literals that is no
  // comment has a slash or a star for its next character that is kept.
  lemma MinifyTwiceExactly(s: string)
    requires M.Minify(s, 0).Some?
    ensures
      var m := M.Minify(s, 0).text;
      M.Minify(m, 0) == M.Some(m) <==> Settled(s, 0)
  {
    var m := M.Minify(s, 0).text;
    assert m[0..] == m;
    TwiceFrom(s, 0, m, 0);
  }

  // Two slashes with a blank between them become a comment.
  lemma TwiceDiffers()
    ensures M.Minify("/ /x", 0) == M.Some("//x") && M.Minify("//x", 0) == M.Some("")
    ensures !Settled("/ /x", 0)
  {
    var s := "/ /x";
    assert M.Minify(s, 4) == M.Some([]) && s[3..4] + [] == "x";
    assert M.Minify(s, 3) == M.Some("x") && s[2..3] + "x" == "/x";
    assert M.Minify(s, 2) == M.Some("/x") && M.Minify(s, 1) == M.Some("/x") && s[0..1] + "/x" == "//x";
    var t := "//x";
    assert M.LineEnd(t, 0) == 3 by { assert M.LineEnd(t, 2) == 3 && M.LineEnd(t, 1) == 3; }
    assert M.Minify(t, 3) == M.Some([]);
  }

  lemma {:induction false} SlashlessSettled(s: string, q: nat)
    requires Slashless(s, q, |s|)
    ensures Settled(s, q)
    decreases |s| - q
  {
    if q < |s| {
      SlashlessSettled(s, if s[q] == '"' then M.LiteralEnd(s, q + 1) else q + 1);
    }
  }

  // What the parser accepts is not changed by minifying it again.
  lemma AcceptedTwice(s: string)
    requires Parse(s, true).Parsed? && Sound(s, 0) && M.Minify(s, 0).Some?
    ensures
      var m := M.Minify(s, 0).text;
      M.Minify(m, 0) == M.Some(m)
  {
    MinifyKeepsMeaning(s);
    SlashlessSettled(s, 0);
    MinifyTwiceExactly(s);
  }
}
