/** Where the token stream is, from the characters it has passed. */
module Positions {
  import opened Wrappers
  import opened Lexer
  import opened TokenStreams
  import opened IgnoredText
  import opened TokenTexts

  /** The text is over, or something comes that is not ignored. */
  predicate StartsSolid(t: string) {
    t == "" || t[0] !in {' ', '\t', '\n', '\r', ',', '\U{FEFF}', '#'}
  }

  /** Piece `k - 1` is the last one that starts a new line. */
  predicate LastBreak(ps: seq<string>, k: nat) {
    k <= |ps| && (k == 0 || IsBreak(ps[k - 1])) && forall j | k <= j < |ps| :: !IsBreak(ps[j])
  }

  function Past(ps: seq<string>, k: nat, pos: Pos): Pos
    requires k <= |ps|
  {
    Pos(pos.line + Breaks(ps), (if k == 0 then pos.column else 1) + Width(ps[k..]))
  }

  lemma AfterPieces(buf: string, off: nat, ps: seq<string>, k: nat, t: string, pos: Pos, budget: nat)
    requires off <= |buf| && buf[off..] == Joined(ps) + t && ArePieces(ps) && LastBreak(ps, k) && StartsSolid(t)
    ensures AfterIgnored(buf, off, pos, budget) == Spot(off + |Joined(ps)|, Past(ps, k, pos), budget)
  {
    PiecesAreSkipped(ps, t);
    PositionAfterIgnoredText(ps, k, t, pos);
    IgnoredEnd(t, false, Past(ps, k, pos));
    hide IgnoredLen, IgnoredPos;
  }

  /** The first token: lines and columns count from one. */
  lemma FirstSpot(buf: string, limit: nat, ps: seq<string>, k: nat, t: string)
    requires buf == Joined(ps) + t && ArePieces(ps) && LastBreak(ps, k) && StartsSolid(t)
    ensures SpotAfter(buf, limit, 0) == Some(Spot(|Joined(ps)|, Past(ps, k, Pos(1, 1)), limit))
  {
    assert buf[0..] == buf;
    AfterPieces(buf, 0, ps, k, t, Pos(1, 1), limit);
  }

  lemma TakeIs(kind: Kind, v: string, rest: string, budget: nat)
    requires IsTokenText(kind, v) && MayFollow(kind, v, rest) && Left(v, budget) >= 0
    ensures Take(v + rest, budget) == Success((Lexeme(kind, |v|), Left(v, budget)))
  {
    var text := v + rest;
    FirstCharacterTells(kind, v);
    assert text[..|v|] == v && text[|v|..] == rest && text[0] == v[0];
    hide IsTokenText, MayFollow, TakeText;
    TakenExactlyWhen(text, kind, |v|);
    SpendIsLeft(kind, v, budget);
  }

  lemma NextIs(buf: string, s: Spot, kind: Kind, v: string, rest: string)
    requires s.off <= |buf| && buf[s.off..] == v + rest
    requires IsTokenText(kind, v) && MayFollow(kind, v, rest) && Left(v, s.budget) >= 0
    ensures s.off + |v| <= |buf| && buf[s.off + |v|..] == rest
    ensures Next(buf, s) ==
            Success((Token(kind, v),
                     AfterIgnored(buf, s.off + |v|, PosAfterToken(kind, v, s.position), Left(v, s.budget))))
  {
    hide IsTokenText, MayFollow, Take, PosAfterToken, AfterIgnored, Left;
    TakeIs(kind, v, rest, s.budget);
    var text, n := buf[s.off..], s.off + |v|;
    assert |text| == |v| + |rest| && text[..|v|] == v && text[|v|..] == rest;
    assert buf[s.off..n] == text[..|v|];
    assert buf[n..] == text[|v|..];
  }

  /** From token to token: past the characters of the token, and then past what is ignored behind it. */
  lemma NextSpot(buf: string, limit: nat, n: nat, s: Spot, kind: Kind, v: string, ps: seq<string>, k: nat, t: string)
    requires SpotAfter(buf, limit, n) == Some(s) && buf[s.off..] == v + (Joined(ps) + t)
    requires IsTokenText(kind, v) && MayFollow(kind, v, Joined(ps) + t) && Left(v, s.budget) >= 0
    requires ArePieces(ps) && LastBreak(ps, k) && StartsSolid(t)
    ensures SpotAfter(buf, limit, n + 1) ==
            Some(Spot(s.off + |v| + |Joined(ps)|, Past(ps, k, PosAfterToken(kind, v, s.position)), Left(v, s.budget)))
  {
    hide IsTokenText, MayFollow, Next, AfterIgnored, PosAfterToken, ArePieces, LastBreak, StartsSolid, SpotAfter;
    hide Left, Past, Joined;
    var rest := Joined(ps) + t;
    NextIs(buf, s, kind, v, rest);
    AfterPieces(buf, s.off + |v|, ps, k, t, PosAfterToken(kind, v, s.position), Left(v, s.budget));
    SpotAfterOneMore(buf, limit, n);
  }
}
