/** What the tokenizer skips, as pieces: blanks, commas, byte order marks and comments up to a line end. */
module IgnoredText {
  import opened Lexer

  /** `#`, up to the first carriage return or line feed. */
  predicate IsComment(p: string) {
    && |p| >= 2
    && p[0] == '#'
    && (p[|p| - 1] == '\r' || p[|p| - 1] == '\n')
    && forall i | 0 < i < |p| - 1 :: p[i] != '\r' && p[i] != '\n'
  }

  predicate IsPiece(p: string) {
    p == " " || p == "\t" || p == "\n" || p == "\r" || p == "," || p == "\U{FEFF}" || IsComment(p)
  }

  /** A comment that the end of the text closes. */
  predicate IsOpenComment(p: string) {
    p != "" && p[0] == '#' && forall i | 0 <= i < |p| :: p[i] != '\r' && p[i] != '\n'
  }

  predicate ArePieces(ps: seq<string>) {
    forall p | p in ps :: IsPiece(p)
  }

  function Joined(ps: seq<string>): string {
    if ps == [] then "" else ps[0] + Joined(ps[1..])
  }

  /** Outside a comment a line feed ends a line; a comment ends one with either line end. */
  predicate IsBreak(p: string) {
    p == "\n" || IsComment(p)
  }

  function Breaks(ps: seq<string>): nat {
    if ps == [] then 0 else Breaks(ps[1..]) + if IsBreak(ps[0]) then 1 else 0
  }

  function Width(ps: seq<string>): nat {
    8 * multiset(ps)["\t"] + multiset(ps)[" "] + multiset(ps)[","]
  }

  // ----- Pieces are skipped -----

  /** The rest of a comment. */
  lemma {:induction false} CommentIsSkipped(s: string, n: nat, pos: Pos)
    requires n < |s| && (s[n] == '\r' || s[n] == '\n')
    requires forall i | 0 <= i < n :: s[i] != '\r' && s[i] != '\n'
    ensures IgnoredLen(s, true) == n + 1 + IgnoredLen(s[n + 1..], false)
    ensures IgnoredPos(s, true, pos) == IgnoredPos(s[n + 1..], false, Pos(pos.line + 1, 1))
  {
    if n > 0 {
      CommentIsSkipped(s[1..], n - 1, pos);
      assert s[1..][n..] == s[n + 1..];
    }
  }

  lemma PieceIsSkipped(p: string, t: string, pos: Pos)
    requires IsPiece(p)
    ensures IgnoredLen(p + t, false) == |p| + IgnoredLen(t, false)
    ensures IgnoredPos(p + t, false, pos) == IgnoredPos(t, false,
              if p == "\n" || IsComment(p) then Pos(pos.line + 1, 1)
              else if p == "\t" then Pos(pos.line, pos.column + 8)
              else if p == " " || p == "," then Pos(pos.line, pos.column + 1)
              else pos)
  {
    var s := p + t;
    if IsComment(p) {
      CommentIsSkipped(s[1..], |p| - 2, pos);
      assert s[1..][|p| - 1..] == t;
    } else {
      assert s[1..] == t;
    }
  }

  lemma {:induction false} PiecesAreSkipped(ps: seq<string>, t: string)
    requires ArePieces(ps)
    ensures IgnoredLen(Joined(ps) + t, false) == |Joined(ps)| + IgnoredLen(t, false)
  {
    if ps == [] {
      assert Joined(ps) + t == t;
    } else {
      PieceIsSkipped(ps[0], Joined(ps[1..]) + t, Pos(0, 0));
      PiecesAreSkipped(ps[1..], t);
      assert Joined(ps) + t == ps[0] + (Joined(ps[1..]) + t);
    }
  }

  /** Ignored text in front of a text changes no token, no error and no budget. */
  lemma IgnoredTextChangesNothing(ps: seq<string>, t: string, budget: nat)
    requires ArePieces(ps)
    ensures Scan(Joined(ps) + t, budget) == Scan(t, budget)
  {
    PiecesAreSkipped(ps, t);
    assert (Joined(ps) + t)[IgnoredLen(Joined(ps) + t, false)..] == t[IgnoredLen(t, false)..];
  }

  lemma {:induction false} OpenCommentIsSkipped(s: string)
    requires forall i | 0 <= i < |s| :: s[i] != '\r' && s[i] != '\n'
    ensures IgnoredLen(s, true) == |s|
  {
    if s != "" {
      OpenCommentIsSkipped(s[1..]);
    }
  }

  /** A comment that the text leaves open hides nothing but itself. */
  lemma NothingFollows(ps: seq<string>, c: string, budget: nat)
    requires ArePieces(ps) && (c == "" || IsOpenComment(c))
    ensures Scan(Joined(ps) + c, budget) == End(EndOfInput)
  {
    IgnoredTextChangesNothing(ps, c, budget);
    if c != "" {
      OpenCommentIsSkipped(c[1..]);
    }
  }

  /** Where the first line end of a text is, or the text ends. */
  lemma {:induction false} LineEndIn(s: string) returns (n: nat)
    ensures n <= |s| && (n < |s| ==> s[n] == '\r' || s[n] == '\n')
    ensures forall i | 0 <= i < n :: s[i] != '\r' && s[i] != '\n'
  {
    n := 0;
    if s != "" && s[0] != '\r' && s[0] != '\n' {
      n := LineEndIn(s[1..]);
      n := n + 1;
      assert forall i | 0 < i < n :: s[i] == s[1..][i - 1];
    }
  }

  /** A piece in front of what is skipped, or an open comment. */
  lemma SkippedStartsWithPiece(s: string) returns (p: string)
    requires IgnoredLen(s, false) > 0
    ensures p <= s
    ensures IsPiece(p) || (p == s && IsOpenComment(s) && IgnoredLen(s, false) == |s|)
  {
    p := s[..1];
    if s[0] == '#' {
      var n := LineEndIn(s);
      if n < |s| {
        p := s[..n + 1];
      } else {
        p := s;
        OpenCommentIsSkipped(s[1..]);
      }
    }
  }

  /** Nothing else is skipped: pieces, and at the end of the text an open comment. */
  lemma {:induction false} SkippedIsPieces(s: string) returns (ps: seq<string>, c: string)
    ensures ArePieces(ps) && s[..IgnoredLen(s, false)] == Joined(ps) + c
    ensures c == "" || (IsOpenComment(c) && IgnoredLen(s, false) == |s|)
    decreases |s|
  {
    ps, c := [], "";
    if IgnoredLen(s, false) > 0 {
      hide IgnoredLen;
      var p := SkippedStartsWithPiece(s);
      var t := s[|p|..];
      if IsPiece(p) {
        PieceIsSkipped(p, t, Pos(0, 0));
        assert s == p + t;
        ps, c := SkippedIsPieces(t);
        ps := [p] + ps;
        assert s[..IgnoredLen(s, false)] == p + t[..IgnoredLen(t, false)];
      } else {
        c := s;
      }
    }
  }

  // ----- Where it leads -----

  /**
   The line after ignored text counts its line feeds and comments. The column starts over after the last of
   them, which is piece `k - 1`, and counts eight for a tab, one for a space or comma and none for the rest.
   */
  lemma {:induction false} PositionAfterIgnoredText(ps: seq<string>, k: nat, t: string, pos: Pos)
    requires ArePieces(ps) && k <= |ps|
    requires k == 0 || IsBreak(ps[k - 1])
    requires forall j | k <= j < |ps| :: !IsBreak(ps[j])
    ensures IgnoredPos(Joined(ps) + t, false, pos) == IgnoredPos(t, false,
              Pos(pos.line + Breaks(ps), (if k == 0 then pos.column else 1) + Width(ps[k..])))
  {
    hide IgnoredLen, IgnoredPos, IsComment;
    if ps == [] {
      assert Joined(ps) + t == t;
    } else {
      var rest := Joined(ps[1..]) + t;
      assert Joined(ps) + t == ps[0] + rest;
      PieceIsSkipped(ps[0], rest, pos);
      var next := if IsBreak(ps[0]) then Pos(pos.line + 1, 1)
                  else Pos(pos.line, pos.column + Width([ps[0]]));
      assert IgnoredPos(Joined(ps) + t, false, pos) == IgnoredPos(rest, false, next);
      PositionAfterIgnoredText(ps[1..], if k == 0 then 0 else k - 1, t, next);
      if k == 0 {
        assert ps[k..] == [ps[0]] + ps[1..];
        assert ps[1..][0..] == ps[1..];
      } else {
        assert ps[1..][k - 1..] == ps[k..];
        assert IsBreak(ps[0]) || k > 1;
      }
    }
  }
}
