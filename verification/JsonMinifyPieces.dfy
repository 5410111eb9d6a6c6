// What minifying does by the pieces of a text (3rdParty/libcjson/cJSON.c:579-594).
module JsonMinifyPieces {
  import opened CText
  import M = JsonMinify

  // The pieces a text is made of.  The end of a line is no part of the comment before it.
  datatype Piece =
    | Blank(c: char)
    | LineComment(t: string)     // what follows the two slashes
    | BlockComment(t: string)    // what stands between the slash and the star at the end
    | Literal(b: string)         // what stands between the quotes
    | Other(c: char)
  {
    function Source(): string {
      match this
      case Blank(c) => [c]
      case LineComment(t) => "//" + t
      case BlockComment(t) => "/" + t + "*/"
      case Literal(b) => "\"" + b + "\""
      case Other(c) => [c]
    }

    predicate IsComment() {
      LineComment? || BlockComment?
    }

    // The star that opens a block comment may also be the one that closes it.
    predicate WellFormed() {
      match this
      case Blank(c) => c in " \t\r\n"
      case LineComment(t) => '\n' !in t
      case BlockComment(t) =>
        && (t == "" || t[0] == '*')
        && forall k :: 0 <= k < |t| ==> !(t[k] == '*' && (t + "*")[k + 1] == '/')
      case Literal(b) => Balanced(b)
      case Other(c) => c !in " \t\r\n\""
    }

    // What may follow the piece
    predicate Before(next: string) {
      && (LineComment? ==> next == "" || next[0] == '\n')
      && (this == Other('/') ==> next == "" || (next[0] != '/' && next[0] != '*'))
    }
  }

  // No quote but behind a backslash, and no backslash at the end
  predicate Balanced(b: string) {
    if b == "" then true
    else if b[0] == '\\' then |b| >= 2 && Balanced(b[2..])
    else b[0] != '"' && Balanced(b[1..])
  }

  function Source(ps: seq<Piece>): string {
    if ps == [] then "" else ps[0].Source() + Source(ps[1..])
  }

  predicate WellFormed(ps: seq<Piece>) {
    ps == [] || (ps[0].WellFormed() && ps[0].Before(Source(ps[1..])) && WellFormed(ps[1..]))
  }

  // Literals and other characters are kept.
  function Kept(ps: seq<Piece>): string {
    if ps == [] then ""
    else (if ps[0].Literal? || ps[0].Other? then ps[0].Source() else "") + Kept(ps[1..])
  }

  function Cut(ps: seq<Piece>): seq<Piece> {
    if ps == [] then [] else (if ps[0].IsComment() then [] else [ps[0]]) + Cut(ps[1..])
  }

  // --------------------------------------------------------------------- where pieces end

  // A comment to the end of the line goes up to the first newline.
  lemma {:induction false} LineEndFirst(s: string, p: nat)
    requires p <= |s|
    ensures forall k :: p <= k < M.LineEnd(s, p) ==> s[k] != '\n'
    decreases |s| - p
  {
    if p < |s| && s[p] != '\n' {
      LineEndFirst(s, p + 1);
    }
  }

  // The mark that ends a comment stands at p.
  predicate Mark(s: string, p: nat)
    requires p <= |s|
  {
    p < |s| && s[p] == '*' && At(s, p + 1) == '/'
  }

  // A comment goes up to the first mark, and to the end of the text if there is none.
  lemma {:induction false} CommentEndFirst(s: string, p: nat)
    requires p <= |s|
    ensures M.CommentEnd(s, p) == |s| || Mark(s, M.CommentEnd(s, p))
    ensures forall k :: p <= k < M.CommentEnd(s, p) ==> !Mark(s, k)
    decreases |s| - p
  {
    if p < |s| && !Mark(s, p) {
      CommentEndFirst(s, p + 1);
    }
  }

  // A literal goes up to the first quote that has no backslash in front of it.
  lemma {:induction false} LiteralEndFirst(s: string, p: nat)
    requires p <= |s| && M.LiteralEnd(s, p) <= |s|
    ensures M.LiteralEnd(s, p) > p && Balanced(s[p..M.LiteralEnd(s, p) - 1]) && s[M.LiteralEnd(s, p) - 1] == '"'
    decreases |s| - p
  {
    var q := M.LiteralEnd(s, p);
    if s[p] == '\\' {
      LiteralEndFirst(s, p + 2);
      assert s[p..q - 1][2..] == s[p + 2..q - 1];
    } else if s[p] != '"' {
      LiteralEndFirst(s, p + 1);
      assert s[p..q - 1][1..] == s[p + 1..q - 1];
    }
  }

  lemma {:induction false} LiteralEndIs(s: string, p: nat, b: string)
    requires Balanced(b) && Occurs(s, p, b + "\"")
    ensures M.LiteralEnd(s, p) == p + |b| + 1
    decreases |b|
  {
    OccursConcat(s, p, b, "\"");
    if b == "" {
      OccursChar(s, p, '"');
    } else {
      var n := if b[0] == '\\' then 2 else 1;
      assert b + "\"" == b[..n] + (b[n..] + "\"");
      OccursConcat(s, p, b[..n], b[n..] + "\"");
      OccursFirst(s, p, b);
      LiteralEndIs(s, p + n, b[n..]);
    }
  }

  lemma {:induction false} LineEndIs(s: string, p: nat, q: nat)
    requires p <= q <= |s| && (q == |s| || s[q] == '\n') && forall k :: p <= k < q ==> s[k] != '\n'
    ensures M.LineEnd(s, p) == q
    decreases q - p
  {
    if p < q {
      LineEndIs(s, p + 1, q);
    }
  }

  lemma {:induction false} CommentEndIs(s: string, p: nat, q: nat)
    requires p <= q <= |s| && (q == |s| || Mark(s, q)) && forall k :: p <= k < q ==> !Mark(s, k)
    ensures M.CommentEnd(s, p) == q
    decreases q - p
  {
    if p < q {
      assert !Mark(s, p);
      CommentEndIs(s, p + 1, q);
    }
  }

  // --------------------------------------------------------------------- one piece

  function Prepend(t: string, r: M.Minified): M.Minified {
    match r
    case Some(rest) => M.Some(t + rest)
    case Cut => M.Cut
  }

  // The piece stands at p, next behind it.
  predicate StandsAt(x: Piece, next: string, s: string, p: nat) {
    p <= |s| && s[p..] == x.Source() + next && x.WellFormed() && x.Before(next)
  }

  lemma Behind(x: Piece, next: string, s: string, p: nat)
    requires StandsAt(x, next, s, p)
    ensures
      var q := p + |x.Source()|;
      p < q <= |s| && s[q..] == next && s[p..q] == x.Source() && forall i :: p <= i < q ==> s[i] == x.Source()[i - p]
  {
    var q := p + |x.Source()|;
    assert s[p..][|x.Source()|..] == s[q..] && s[p..][..|x.Source()|] == s[p..q];
    forall i | p <= i < q ensures s[i] == x.Source()[i - p] {
      assert s[p..][i - p] == s[i];
    }
    hide Balanced;
  }

  lemma PieceMinified(x: Piece, next: string, s: string, p: nat)
    requires StandsAt(x, next, s, p)
    ensures
      var q := p + |x.Source()|;
      && q <= |s| && s[q..] == next
      && M.Minify(s, p) == if x.Literal? || x.Other? then Prepend(x.Source(), M.Minify(s, q)) else M.Minify(s, q)
  {
    Behind(x, next, s, p);
    hide M.LineEnd, M.CommentEnd, M.LiteralEnd;
    match x
    case Blank(c) =>
    case LineComment(t) =>
      LineMinified(x, next, s, p);
    case BlockComment(t) =>
      BlockMinified(x, next, s, p);
    case Literal(b) =>
      LiteralMinified(x, next, s, p);
    case Other(c) =>
      OtherMinified(x, next, s, p);
  }

  lemma LineMinified(x: Piece, next: string, s: string, p: nat)
    requires StandsAt(x, next, s, p) && x.LineComment?
    ensures p + |x.Source()| <= |s| && M.Minify(s, p) == M.Minify(s, p + |x.Source()|)
  {
    Behind(x, next, s, p);
    var q, t := p + |x.Source()|, x.Source();
    assert t[0] == t[1] == '/' && forall k :: 2 <= k < |t| ==> t[k] in x.t;
    assert q < |s| ==> s[q] == next[0];
    LineEndIs(s, p, q);
  }

  lemma BlockMinified(x: Piece, next: string, s: string, p: nat)
    requires StandsAt(x, next, s, p) && x.BlockComment?
    ensures p + |x.Source()| <= |s| && M.Minify(s, p) == M.Minify(s, p + |x.Source()|)
  {
    Behind(x, next, s, p);
    var t, u := x.Source(), x.t + "*";
    var e := p + 1 + |x.t|;
    assert t[0] == '/' && t[|t| - 2] == '*' && t[|t| - 1] == '/' && t[1] == '*' by {
      assert x.t != "" ==> t[1] == x.t[0];
    }
    forall k | p <= k < e ensures !Mark(s, k) {
      if k > p {
        assert s[k] == x.t[k - p - 1];
        assert s[k + 1] == t[k + 1 - p] == u[k - p];
      }
    }
    CommentEndIs(s, p, e);
  }

  lemma LiteralMinified(x: Piece, next: string, s: string, p: nat)
    requires StandsAt(x, next, s, p) && x.Literal?
    ensures p + |x.Source()| <= |s| && M.Minify(s, p) == Prepend(x.Source(), M.Minify(s, p + |x.Source()|))
  {
    Behind(x, next, s, p);
    LiteralStandsAt(x, next, s, p);
    LiteralEndIs(s, p + 1, x.b);
    LiteralStep(s, p);
    hide M.LiteralEnd, M.Minify, Balanced, Occurs, StandsAt;
  }

  lemma LiteralStandsAt(x: Piece, next: string, s: string, p: nat)
    requires StandsAt(x, next, s, p) && x.Literal?
    ensures Balanced(x.b) && p < |s| && s[p] == '"' && Occurs(s, p + 1, x.b + "\"") && |x.Source()| == |x.b| + 2
  {
    Behind(x, next, s, p);
    var t, u := x.Source(), x.b + "\"";
    assert t == "\"" + u;
    forall k | 0 <= k < |u| ensures s[p + 1 + k] == u[k] {
      assert s[p + (1 + k)] == t[1 + k];
    }
    assert s[p] == t[0];
    hide Balanced;
  }

  lemma LiteralStep(s: string, p: nat)
    requires p < |s| && s[p] == '"'
    ensures
      var q := M.LiteralEnd(s, p + 1);
      q <= |s| ==> M.Minify(s, p) == Prepend(s[p..q], M.Minify(s, q))
  {
    hide M.LiteralEnd;
  }

  lemma OtherMinified(x: Piece, next: string, s: string, p: nat)
    requires StandsAt(x, next, s, p) && x.Other?
    ensures p + |x.Source()| <= |s| && M.Minify(s, p) == Prepend(x.Source(), M.Minify(s, p + |x.Source()|))
  {
    Behind(x, next, s, p);
    assert s[p] == x.c && s[p..p + 1] == [x.c];
    assert p + 1 < |s| ==> s[p + 1] == next[0];
    hide M.LineEnd, M.CommentEnd, M.LiteralEnd;
  }

  // --------------------------------------------------------------------- whole texts

  lemma {:induction false} PiecesMinified(ps: seq<Piece>, s: string, p: nat)
    requires WellFormed(ps) && p <= |s| && s[p..] == Source(ps)
    ensures M.Minify(s, p) == M.Some(Kept(ps))
  {
    hide M.Minify, Balanced, Piece.WellFormed, Piece.Source, Piece.Before;
    if ps == [] {
      MinifyEnd(s);
    } else {
      PieceMinified(ps[0], Source(ps[1..]), s, p);
      PiecesMinified(ps[1..], s, p + |ps[0].Source()|);
    }
  }

  lemma MinifyEnd(s: string)
    ensures M.Minify(s, |s|) == M.Some("")
  {
  }

  // A text of well-formed pieces is minified to those that are kept.
  lemma MinifyKeeps(ps: seq<Piece>)
    requires WellFormed(ps)
    ensures M.Minify(Source(ps), 0) == M.Some(Kept(ps))
  {
    assert Source(ps)[0..] == Source(ps);
    PiecesMinified(ps, Source(ps), 0);
  }

  // Every text whose literals and comments are closed is made of pieces.
  lemma {:induction false} PiecesOf(s: string, p: nat) returns (ps: seq<Piece>)
    requires M.Minify(s, p).Some?
    ensures p <= |s| && WellFormed(ps) && Source(ps) == s[p..]
    decreases |s| - p
  {
    if p == |s| {
      ps := [];
    } else {
      var x, q := FirstPiece(s, p);
      var rest := PiecesOf(s, q);
      ps := [x] + rest;
      assert ps[1..] == rest;
      assert s[p..] == s[p..q] + s[q..];
      hide M.Minify, Balanced, M.LineEnd, M.CommentEnd;
    }
  }

  lemma FirstPiece(s: string, p: nat) returns (x: Piece, q: nat)
    requires p < |s| && M.Minify(s, p).Some?
    ensures p < q <= |s| && x.WellFormed() && s[p..q] == x.Source() && x.Before(s[q..]) && M.Minify(s, q).Some?
  {
    if s[p] == '/' && At(s, p + 1) == '/' {
      x, q := FirstLine(s, p);
    } else if s[p] == '/' && At(s, p + 1) == '*' {
      x, q := FirstBlock(s, p);
    } else if s[p] == '"' {
      x, q := FirstLiteral(s, p);
    } else {
      x, q := FirstOther(s, p);
    }
    hide *;
  }

  lemma FirstLine(s: string, p: nat) returns (x: Piece, q: nat)
    requires p < |s| && M.Minify(s, p).Some? && s[p] == '/' && At(s, p + 1) == '/'
    ensures p < q <= |s| && x.WellFormed() && s[p..q] == x.Source() && x.Before(s[q..]) && M.Minify(s, q).Some?
  {
    q := M.LineEnd(s, p);
    LineEndFirst(s, p);
    assert M.Minify(s, q).Some?;
    assert q >= p + 2;
    hide M.Minify, M.LineEnd;
    x := LineComment(s[p + 2..q]);
    assert s[p..q] == [s[p]] + [s[p + 1]] + s[p + 2..q];
    forall k | p + 2 <= k < q ensures s[k] != '\n' {
    }
  }

  lemma FirstLiteral(s: string, p: nat) returns (x: Piece, q: nat)
    requires p < |s| && M.Minify(s, p).Some? && s[p] == '"'
    ensures p < q <= |s| && x.WellFormed() && s[p..q] == x.Source() && x.Before(s[q..]) && M.Minify(s, q).Some?
  {
    q := M.LiteralEnd(s, p + 1);
    assert M.Minify(s, q).Some? && q <= |s|;
    LiteralEndFirst(s, p + 1);
    hide M.Minify, M.LiteralEnd, Balanced;
    x := Literal(s[p + 1..q - 1]);
    assert s[p..q] == [s[p]] + s[p + 1..q - 1] + [s[q - 1]];
  }

  lemma FirstOther(s: string, p: nat) returns (x: Piece, q: nat)
    requires p < |s| && M.Minify(s, p).Some? && s[p] != '"'
    requires s[p] == '/' ==> At(s, p + 1) != '/' && At(s, p + 1) != '*'
    ensures p < q <= |s| && x.WellFormed() && s[p..q] == x.Source() && x.Before(s[q..]) && M.Minify(s, q).Some?
  {
    q := p + 1;
    x := if M.IsBlank(s[p]) then Blank(s[p]) else Other(s[p]);
    assert M.Minify(s, q).Some?;
    hide M.Minify;
    assert q < |s| ==> s[q..][0] == At(s, p + 1);
  }

  lemma FirstBlock(s: string, p: nat) returns (x: Piece, q: nat)
    requires p < |s| && M.Minify(s, p).Some? && s[p] == '/' && At(s, p + 1) == '*'
    ensures p < q <= |s| && x.WellFormed() && s[p..q] == x.Source() && x.Before(s[q..]) && M.Minify(s, q).Some?
  {
    q := M.CommentEnd(s, p) + 2;
    assert M.Minify(s, q).Some? && q <= |s|;
    CommentEndFirst(s, p);
    hide M.CommentEnd, M.Minify;
    x := BlockIs(s, p, q - 2);
  }

  lemma BlockIs(s: string, p: nat, e: nat) returns (x: Piece)
    requires p < e < |s| - 1 && s[p] == '/' && At(s, p + 1) == '*' && Mark(s, e) && forall k :: p <= k < e ==> !Mark(s, k)
    ensures x.WellFormed() && x.BlockComment? && s[p..e + 2] == x.Source()
  {
    var t := s[p + 1..e];
    var u := t + "*";
    forall k | 0 <= k < |t| ensures !(t[k] == '*' && u[k + 1] == '/') {
      assert !Mark(s, p + 1 + k);
      assert u[k + 1] == s[p + 2 + k];
    }
    x := BlockComment(t);
    assert s[p..e + 2] == [s[p]] + t + [s[e]] + [s[e + 1]];
  }

  lemma {:induction false} CutWellFormed(ps: seq<Piece>)
    requires WellFormed(ps)
    ensures WellFormed(Cut(ps)) && Kept(Cut(ps)) == Kept(ps)
    ensures ps != [] && !ps[0].IsComment() ==> Source(Cut(ps)) != "" && Source(Cut(ps))[0] == Source(ps)[0]
  {
    if ps != [] {
      var x, rest := ps[0], Cut(ps[1..]);
      CutWellFormed(ps[1..]);
      assert x.Source() != "" && (x.IsComment() ==> x.Source()[0] == '/');
      hide Balanced;
      if x.IsComment() {
        assert Cut(ps) == rest;
      } else {
        assert Cut(ps) == [x] + rest && ([x] + rest)[1..] == rest;
        BeforeCut(x, ps[1..]);
      }
    }
  }

  lemma BeforeCut(x: Piece, rest: seq<Piece>)
    requires x.Before(Source(rest)) && !x.IsComment()
    requires rest != [] && !rest[0].IsComment() ==> Source(Cut(rest)) != "" && Source(Cut(rest))[0] == Source(rest)[0]
    ensures x.Before(Source(Cut(rest)))
  {
    if rest != [] && rest[0].IsComment() {
      assert rest[0].Source()[0] == '/' && Source(rest)[0] == '/';
    }
  }

  // A text minifies like the text without its comments.
  lemma CommentsCut(ps: seq<Piece>)
    requires WellFormed(ps)
    ensures M.Minify(Source(Cut(ps)), 0) == M.Minify(Source(ps), 0)
  {
    CutWellFormed(ps);
    MinifyKeeps(ps);
    MinifyKeeps(Cut(ps));
  }
}
