/**
 The mutable token stream of crates/parser/src/tokenizer.rs: an offset, a position, a
 nesting budget and a cache holding the last token read.  Under one-token look-ahead the
 cache and `Reset` are invisible: the stream delivers the tokens, positions and errors of
 one straight pass, and the budget counts every bracket once.
 */
module TokenStreams {
  import opened Wrappers
  import opened Lexer

  /** Where a straight pass stands: after some number of tokens and the ignored text behind them. */
  datatype Spot = Spot(off: nat, position: Pos, budget: nat)

  datatype Checkpoint = Checkpoint(position: Pos, off: nat)

  datatype Cached = Cached(at: nat, token: Token, off: nat, position: Pos)

  function AfterIgnored(buf: string, off: nat, position: Pos, budget: nat): (s: Spot)
    requires off <= |buf|
    ensures s.off <= |buf|
  {
    Spot(off + IgnoredLen(buf[off..], false), IgnoredPos(buf[off..], false, position), budget)
  }

  function Start(buf: string, limit: nat): (s: Spot)
    ensures s.off <= |buf|
  {
    AfterIgnored(buf, 0, Pos(1, 1), limit)
  }

  /** One step of the straight pass: the token at `s` and the spot after it, or the error there. */
  function Next(buf: string, s: Spot): (r: Result<(Token, Spot), LexError>)
    requires s.off <= |buf|
    ensures r.Success? ==> s.off < r.value.1.off <= |buf|
  {
    var (l, after) :- Take(buf[s.off..], s.budget);
    var text := buf[s.off..s.off + l.len];
    var position := PosAfterToken(l.kind, text, s.position);
    Success((Token(l.kind, text), AfterIgnored(buf, s.off + l.len, position, after)))
  }

  /** The spot after `n` tokens of the straight pass. */
  function SpotAfter(buf: string, limit: nat, n: nat): (r: Option<Spot>)
    ensures r.Some? ==> r.value.off <= |buf|
  {
    if n == 0 then Some(Start(buf, limit))
    else
      match SpotAfter(buf, limit, n - 1)
      case None => None
      case Some(s) =>
        match Next(buf, s)
        case Failure(_) => None
        case Success((_, s')) => Some(s')
  }

  /** The token number `n` of the straight pass. */
  function TokenAt(buf: string, limit: nat, n: nat): Token
    requires SpotAfter(buf, limit, n + 1).Some?
  {
    Next(buf, SpotAfter(buf, limit, n).value).value.0
  }

  /** Open brackets minus close brackets among the first `n` tokens. */
  function NetOpenBefore(buf: string, limit: nat, n: nat): int
    requires SpotAfter(buf, limit, n).Some?
  {
    if n == 0 then 0 else NetOpenBefore(buf, limit, n - 1) + NetOpen(TokenAt(buf, limit, n - 1))
  }

  lemma SpotAfterOneMore(buf: string, limit: nat, n: nat)
    requires SpotAfter(buf, limit, n).Some?
    ensures match Next(buf, SpotAfter(buf, limit, n).value)
            case Failure(_) => SpotAfter(buf, limit, n + 1) == None
            case Success((_, s)) => SpotAfter(buf, limit, n + 1) == Some(s)
  {
  }

  lemma SpotsAdvance(buf: string, limit: nat, n: nat)
    requires n > 0 && SpotAfter(buf, limit, n).Some?
    ensures SpotAfter(buf, limit, n - 1).Some?
    ensures SpotAfter(buf, limit, n - 1).value.off < SpotAfter(buf, limit, n).value.off
  {
  }

  lemma {:induction false} NothingIgnoredAfterIgnored(s: string, inComment: bool)
    ensures IgnoredLen(s[IgnoredLen(s, inComment)..], false) == 0
  {
    var n := IgnoredLen(s, inComment);
    if n > 0 {
      var next := if inComment then !IsLineEnd(s[0]) else s[0] == '#';
      NothingIgnoredAfterIgnored(s[1..], next);
      assert s[n..] == s[1..][n - 1..];
    } else {
      assert s[n..] == s;
    }
  }

  /** One step of the pass is one token of `Scan`, whose remaining text is where the next spot starts. */
  lemma {:induction false} NextIsScan(buf: string, s: Spot)
    requires s.off <= |buf| && IgnoredLen(buf[s.off..], false) == 0
    ensures Next(buf, s).Failure? ==> Scan(buf[s.off..], s.budget) == End(Next(buf, s).error)
    ensures Next(buf, s).Success? ==>
              var (tok, s') := Next(buf, s).value;
              && IgnoredLen(buf[s'.off..], false) == 0
              && Scan(buf[s.off..], s.budget) == More(tok, Scan(buf[s'.off..], s'.budget))
  {
    hide TakeText, IgnoredLen, IgnoredPos, PosAfterToken;
    var t := buf[s.off..];
    assert t[0..] == t;
    if Take(t, s.budget).Success? {
      var (l, after) := Take(t, s.budget).value;
      var end := s.off + l.len;
      assert t[..l.len] == buf[s.off..end];
      assert t[l.len..] == buf[end..];
      ScanSkipsIgnored(buf, end, after);
    }
  }

  lemma {:induction false} ScanSkipsIgnored(buf: string, off: nat, budget: nat)
    requires off <= |buf|
    ensures var off' := off + IgnoredLen(buf[off..], false);
            IgnoredLen(buf[off'..], false) == 0 && Scan(buf[off'..], budget) == Scan(buf[off..], budget)
  {
    hide Take;
    var n := IgnoredLen(buf[off..], false);
    NothingIgnoredAfterIgnored(buf[off..], false);
    assert buf[off..][n..] == buf[off + n..];
    assert buf[off + n..][0..] == buf[off + n..];
  }

  lemma NextSpends(buf: string, s: Spot)
    requires s.off <= |buf| && Next(buf, s).Success?
    ensures var (tok, s') := Next(buf, s).value;
            tok.value != "" && Spend(s.budget, tok.value[0]) == Some(s'.budget)
  {
    hide TakeText, IgnoredLen, IgnoredPos, PosAfterToken;
    var (l, after) := Take(buf[s.off..], s.budget).value;
    assert buf[s.off..s.off + l.len][0] == buf[s.off..][0];
  }

  function Drop(i: Input, n: nat): Input {
    if n == 0 || i.End? then i else Drop(i.rest, n - 1)
  }

  lemma {:induction false} DropMore(i: Input, n: nat)
    requires Drop(i, n).More?
    ensures Drop(i, n + 1) == Drop(i, n).rest
  {
    if n > 0 {
      DropMore(i.rest, n - 1);
    }
  }

  /**
   The spots are those of the scan of the whole text: what `Scan` still has to give after
   `n` tokens is the scan from the spot, and the budget there is the limit less the brackets
   left open.
   */
  lemma {:induction false} StraightPassIsScan(buf: string, limit: nat, n: nat)
    requires SpotAfter(buf, limit, n).Some?
    ensures var s := SpotAfter(buf, limit, n).value;
            && IgnoredLen(buf[s.off..], false) == 0
            && Drop(Scan(buf, limit), n) == Scan(buf[s.off..], s.budget)
            && (limit + |buf| < USIZE_MAX ==> s.budget == limit - NetOpenBefore(buf, limit, n) <= limit + s.off)
  {
    hide TakeText, IgnoredLen, IgnoredPos, PosAfterToken, Scan, Next;
    if n == 0 {
      ScanSkipsIgnored(buf, 0, limit);
      assert buf[0..] == buf;
    } else {
      SpotsAdvance(buf, limit, n);
      StraightPassIsScan(buf, limit, n - 1);
      var s := SpotAfter(buf, limit, n - 1).value;
      NextIsScan(buf, s);
      DropMore(Scan(buf, limit), n - 1);
      NextSpends(buf, s);
    }
  }

  lemma BlockEndStep(body: string, i: nat, escaped: bool)
    requires i + 3 <= |body|
    ensures body[i..i + 3] == QUOTES ==>
              BlockEnd(body[i..], escaped) == if escaped then Shift(3, BlockEnd(body[i + 3..], false)) else Some(0)
    ensures body[i..i + 3] != QUOTES ==>
              BlockEnd(body[i..], escaped) == Shift(1, BlockEnd(body[i + 1..], body[i] == '\\'))
  {
    var s := body[i..];
    assert s[..3] == body[i..i + 3];
    assert s[3..] == body[i + 3..] && s[1..] == body[i + 1..];
  }

  lemma BlockEndShort(s: string, escaped: bool)
    requires |s| < 3
    ensures BlockEnd(s, escaped) == None
  {
  }

  class TokenStream {
    const buf: string
    var position: Pos
    var off: nat
    var nextState: Option<Cached>
    var recursionLimit: nat
    /** The budget the stream started with. */
    ghost const limit: nat
    /** How many tokens of the straight pass have been read from the text, and how many delivered. */
    ghost var lexed: nat
    ghost var taken: nat

    ghost predicate Valid()
      reads this
    {
      && taken <= lexed <= taken + 1
      && SpotAfter(buf, limit, taken).Some?
      && SpotAfter(buf, limit, lexed).Some?
      && off == SpotAfter(buf, limit, taken).value.off
      && position == SpotAfter(buf, limit, taken).value.position
      && recursionLimit == SpotAfter(buf, limit, lexed).value.budget
      && (lexed == 0 ==> nextState == None)
      && (lexed > 0 ==> nextState == Some(CacheOf(lexed - 1)))
    }

    /** What the cache holds once token number `n` has been read. */
    ghost function CacheOf(n: nat): Cached
      requires SpotAfter(buf, limit, n + 1).Some?
    {
      var s := SpotAfter(buf, limit, n).value;
      var (tok, s') := Next(buf, s).value;
      Cached(s.off, tok, s'.off, s'.position)
    }

    constructor WithRecursionLimit(s: string, recursionLimit: nat)
      ensures Valid() && buf == s && limit == recursionLimit
      ensures lexed == taken == 0
    {
      buf := s;
      position := Pos(1, 1);
      off := 0;
      nextState := None;
      this.recursionLimit := recursionLimit;
      limit := recursionLimit;
      lexed, taken := 0, 0;
      new;
      SkipWhitespace();
    }

    /** Delivers token number `taken` of the straight pass, or the error the pass ends with. */
    method Uncons() returns (r: Result<Token, LexError>)
      requires Valid()
      modifies this
      ensures Valid()
      ensures match Next(buf, SpotAfter(buf, limit, old(taken)).value)
              case Failure(e) =>
                && r == Failure(e)
                && taken == old(taken) && lexed == old(lexed)
              case Success((tok, s')) =>
                && r == Success(tok)
                && taken == old(taken) + 1
                && off == s'.off && position == s'.position
    {
      hide TakeText, IgnoredLen, IgnoredPos, PosAfterToken, SpotAfter;
      ghost var spot := SpotAfter(buf, limit, taken).value;
      SpotAfterOneMore(buf, limit, taken);
      if nextState.Some? && nextState.value.at == off {
        if taken == lexed {
          SpotsAdvance(buf, limit, lexed);
          assert false;
        }
        off := nextState.value.off;
        position := nextState.value.position;
        taken := taken + 1;
        return Success(nextState.value.token);
      }
      assert lexed == taken;
      var oldPos := off;
      var lexeme := TakeToken();
      if lexeme.Failure? {
        return Failure(lexeme.error);
      }
      var kind, len := lexeme.value.kind, lexeme.value.len;
      var value := buf[off - len..off];
      SkipWhitespace();
      var token := Token(kind, value);
      assert Next(buf, spot) == Success((token, Spot(off, position, recursionLimit)));
      nextState := Some(Cached(oldPos, token, off, position));
      taken, lexed := taken + 1, lexed + 1;
      return Success(token);
    }

    function GetCheckpoint(): Checkpoint
      reads this
    {
      Checkpoint(position, off)
    }

    /** Stepping back to where the stream is, or to just before the last token read. */
    method Reset(checkpoint: Checkpoint, ghost to: nat)
      requires Valid()
      requires to <= lexed <= to + 1
      requires SpotAfter(buf, limit, to).Some?
      requires checkpoint == Checkpoint(SpotAfter(buf, limit, to).value.position, SpotAfter(buf, limit, to).value.off)
      modifies `position, `off, `taken
      ensures Valid()
      ensures taken == to && GetCheckpoint() == checkpoint
    {
      hide SpotAfter, Next;
      position := checkpoint.position;
      off := checkpoint.off;
      taken := to;
    }

    method AdvanceToken(kind: Kind, size: nat) returns (r: Lexeme)
      modifies `position, `off
      ensures r == Lexeme(kind, size)
      ensures off == old(off) + size
      ensures position == Pos(old(position).line, old(position).column + size)
    {
      position := Pos(position.line, position.column + size);
      off := off + size;
      return Lexeme(kind, size);
    }

    /** Reads the token at the offset; nothing changes when there is none. */
    method TakeToken() returns (r: Result<Lexeme, LexError>)
      requires off <= |buf|
      modifies `position, `off, `recursionLimit
      ensures match Take(buf[old(off)..], old(recursionLimit))
              case Failure(e) =>
                && r == Failure(e)
                && off == old(off) && position == old(position) && recursionLimit == old(recursionLimit)
              case Success((l, after)) =>
                && r == Success(l)
                && off == old(off) + l.len <= |buf|
                && recursionLimit == after
                && position == PosAfterToken(l.kind, buf[old(off)..off], old(position))
    {
      var tail := buf[off..];
      if tail == "" {
        return Failure(EndOfInput);
      }
      var curChar := tail[0];
      if IsOpen(curChar) {
        if recursionLimit == 0 {
          return Failure(RecursionLimitExceeded);
        }
        recursionLimit := recursionLimit - 1;
        var l := AdvanceToken(Punctuator, 1);
        return Success(l);
      } else if IsClose(curChar) {
        recursionLimit := SaturatingIncrement(recursionLimit);
        var l := AdvanceToken(Punctuator, 1);
        return Success(l);
      } else if IsSymbol(curChar) {
        var l := AdvanceToken(Punctuator, 1);
        return Success(l);
      } else if curChar == '.' {
        if ".." <= tail[1..] {
          assert tail[..3] == "...";
          var l := AdvanceToken(Punctuator, 3);
          return Success(l);
        }
        return Failure(BareDot);
      } else if IsNameStart(curChar) {
        var idx := 1;
        while idx < |tail| && IsNameChar(tail[idx])
          invariant 1 <= idx <= |tail|
          invariant 1 + NameRun(tail[1..]) == idx + NameRun(tail[idx..])
        {
          assert tail[idx..][1..] == tail[idx + 1..];
          idx := idx + 1;
        }
        var l := AdvanceToken(Name, idx);
        return Success(l);
      } else if curChar == '-' || IsDigit(curChar) {
        r := TakeNumber(tail);
      } else if curChar == '"' {
        if "\"\"" <= tail[1..] {
          assert tail[..3] == QUOTES;
          r := TakeBlockString(tail);
        } else {
          r := TakeString(tail);
        }
      } else {
        return Failure(UnexpectedCharacter);
      }
    }

    /** The loop over the characters of a number. */
    static method ScanNumber(tail: string) returns (idx: nat, exponent: Option<nat>, point: Option<nat>)
      requires tail != ""
      ensures 1 <= idx <= |tail| && idx == 1 + NumberRun(tail[1..])
      ensures tail[0] !in {'e', 'E', '.'} ==>
                exponent == LastOf(tail[..idx], {'e', 'E'}) && point == LastOf(tail[..idx], {'.'})
    {
      exponent, point := None, None;
      idx := 1;
      assert tail[0] !in {'e', 'E', '.'} ==> LastOf(tail[..1], {'e', 'E'}) == LastOf(tail[..1], {'.'}) == None;
      while idx < |tail| && !IsDelimiter(tail[idx])
        invariant 1 <= idx <= |tail|
        invariant 1 + NumberRun(tail[1..]) == idx + NumberRun(tail[idx..])
        invariant tail[0] !in {'e', 'E', '.'} ==>
                    exponent == LastOf(tail[..idx], {'e', 'E'}) && point == LastOf(tail[..idx], {'.'})
      {
        assert tail[idx..][1..] == tail[idx + 1..];
        assert tail[..idx + 1][..idx] == tail[..idx];
        if tail[idx] == '.' {
          point := Some(idx);
        } else if tail[idx] == 'e' || tail[idx] == 'E' {
          exponent := Some(idx);
        }
        idx := idx + 1;
      }
    }

    method TakeNumber(tail: string) returns (r: Result<Lexeme, LexError>)
      requires off <= |buf| && tail == buf[off..]
      requires tail != "" && (tail[0] == '-' || IsDigit(tail[0]))
      modifies `position, `off
      ensures r == NumberText(tail)
      ensures r.Failure? ==> off == old(off) && position == old(position)
      ensures r.Success? ==> off == old(off) + r.value.len
      ensures r.Success? ==> position == Pos(old(position).line, old(position).column + r.value.len)
      ensures r.Success? ==> r.value.kind in {IntValue, FloatValue}
    {
      hide CheckInt, CheckFloat, NumberRun, LastOf;
      var idx, exponent, point := ScanNumber(tail);
      var value := tail[..idx];
      if exponent.Some? || point.Some? {
        if !CheckFloat(value, exponent, point) {
          return Failure(UnsupportedFloat);
        }
        position := Pos(position.line, position.column + idx);
        off := off + idx;
        return Success(Lexeme(FloatValue, idx));
      } else {
        if !CheckInt(value) {
          return Failure(UnsupportedInteger);
        }
        var l := AdvanceToken(IntValue, idx);
        return Success(l);
      }
    }

    method TakeString(tail: string) returns (r: Result<Lexeme, LexError>)
      requires off <= |buf| && tail == buf[off..]
      requires tail != "" && tail[0] == '"' && !(QUOTES <= tail)
      modifies `position, `off
      ensures r == StringText(tail)
      ensures r.Failure? ==> off == old(off) && position == old(position)
      ensures r.Success? ==> off == old(off) + r.value.len
      ensures r.Success? ==> position == Pos(old(position).line, old(position).column + r.value.len)
      ensures r.Success? ==> r.value.kind == StringValue
    {
      var nchars := 1;
      var escaped := false;
      var idx := 1;
      while idx < |tail|
        invariant 1 <= idx <= |tail| && nchars == idx
        invariant StringEnd(tail[1..], false) ==
                  Shift(idx - 1, StringEnd(tail[idx..], escaped))
      {
        var curChar := tail[idx];
        assert tail[idx..][1..] == tail[idx + 1..];
        nchars := nchars + 1;
        if curChar == '"' && !escaped {
          position := Pos(position.line, position.column + nchars);
          off := off + (idx + 1);
          return Success(Lexeme(StringValue, idx + 1));
        } else if curChar == '\n' {
          return Failure(UnterminatedString);
        }
        escaped := !escaped && curChar == '\\';
        idx := idx + 1;
      }
      return Failure(UnterminatedString);
    }

    method TakeBlockString(tail: string) returns (r: Result<Lexeme, LexError>)
      requires off <= |buf| && tail == buf[off..]
      requires tail != "" && tail[0] == '"' && QUOTES <= tail
      modifies `position, `off
      ensures r == BlockStringText(tail)
      ensures r.Failure? ==> off == old(off) && position == old(position)
      ensures r.Success? ==> off == old(off) + r.value.len
      ensures r.Success? ==> position == PosAfterText(buf[old(off)..off], old(position))
      ensures r.Success? ==> r.value.kind == BlockString
    {
      hide BlockEnd;
      var body := tail[3..];
      var endIdx := 0;
      while endIdx + 3 <= |body|
        invariant 0 <= endIdx <= |body| && off == old(off) && position == old(position)
        invariant BlockEnd(body, false) ==
                  Shift(endIdx, BlockEnd(body[endIdx..], EndsWithBackslash(body[..endIdx])))
      {
        BlockEndStep(body, endIdx, EndsWithBackslash(body[..endIdx]));
        if body[endIdx..endIdx + 3] == QUOTES {
          if !EndsWithBackslash(body[..endIdx]) {
            UpdatePosition(endIdx + 6);
            return Success(Lexeme(BlockString, endIdx + 6));
          }
          assert body[endIdx + 2] == body[endIdx..endIdx + 3][2];
          endIdx := endIdx + 3;
        } else {
          endIdx := endIdx + 1;
        }
      }
      BlockEndShort(body[endIdx..], EndsWithBackslash(body[..endIdx]));
      return Failure(UnterminatedBlockString);
    }

    static predicate EndsWithBackslash(s: string) {
      s != "" && s[|s| - 1] == '\\'
    }

    method SkipWhitespace()
      requires off <= |buf|
      modifies `position, `off
      ensures off <= |buf|
      ensures off == old(off) + IgnoredLen(buf[old(off)..], false)
      ensures position == IgnoredPos(buf[old(off)..], false, old(position))
    {
      hide IgnoredLen, IgnoredPos;
      var tail := buf[off..];
      var idx := 0;
      while idx < |tail| && (tail[idx] == '#' || IsIgnorable(tail[idx]))
        invariant 0 <= idx <= |tail| && off == old(off)
        invariant IgnoredLen(tail, false) == idx + IgnoredLen(tail[idx..], false)
        invariant IgnoredPos(tail, false, old(position)) == IgnoredPos(tail[idx..], false, position)
      {
        var curChar := tail[idx];
        IgnoredStep(tail[idx..], false, position);
        assert tail[idx..][1..] == tail[idx + 1..];
        idx := idx + 1;
        if curChar == '\t' {
          position := Pos(position.line, position.column + 8);
        } else if curChar == '\n' {
          position := Pos(position.line + 1, 1);
        } else if curChar == ' ' || curChar == ',' {
          position := Pos(position.line, position.column + 1);
        } else if curChar == '#' {
          var inComment := true;
          while inComment && idx < |tail|
            invariant 0 < idx <= |tail| && off == old(off)
            invariant IgnoredLen(tail, false) == idx + IgnoredLen(tail[idx..], inComment)
            invariant IgnoredPos(tail, false, old(position)) == IgnoredPos(tail[idx..], inComment, position)
            decreases |tail| - idx
          {
            IgnoredStep(tail[idx..], true, position);
            assert tail[idx..][1..] == tail[idx + 1..];
            if IsLineEnd(tail[idx]) {
              position := Pos(position.line + 1, 1);
              inComment := false;
            }
            idx := idx + 1;
          }
          if inComment {
            IgnoredEnd(tail[idx..], true, position);
            IgnoredEnd(tail[idx..], false, position);
          }
        }
      }
      IgnoredEnd(tail[idx..], false, position);
      off := off + idx;
    }

    method UpdatePosition(len: nat)
      requires off + len <= |buf|
      modifies `position, `off
      ensures off == old(off) + len <= |buf|
      ensures position == PosAfterText(buf[old(off)..off], old(position))
    {
      var val := buf[off..off + len];
      off := off + len;
      var lines, lineOffset, i := 0, 0, 0;
      while i < |val|
        invariant 0 <= lineOffset <= i <= |val|
        invariant PosAfterText(val, position) == PosAfterText(val[i..],
          if lines > 0 then Pos(position.line + lines, i - lineOffset + 1) else Pos(position.line, position.column + i))
        invariant lines == 0 ==> lineOffset == 0
      {
        assert val[i..][1..] == val[i + 1..];
        if val[i] == '\n' {
          lines, lineOffset := lines + 1, i + 1;
        }
        i := i + 1;
      }
      if lines > 0 {
        position := Pos(position.line + lines, |val| - lineOffset + 1);
      } else {
        position := Pos(position.line, position.column + |val|);
      }
    }
  }
}
