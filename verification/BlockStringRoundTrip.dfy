/**
 The triple-quoted form of a string is always one token, and it is read back as the same
 string exactly when `Intact` says so.

 The proof follows the form line by line: how each escaped and indented line scans, how the
 lines are found again in the token, what the common indentation takes away from them, and
 which lines at the start and the end are dropped as blank.
 */
module BlockStringRoundTrip {
  import opened Wrappers
  import opened Lexer
  import opened BlockStrings

  function EscapeQuotes(l: string): string {
    Replace(l, QUOTES, ESCAPED_QUOTES)
  }

  function UnescapeQuotes(l: string): string {
    Replace(l, ESCAPED_QUOTES, QUOTES)
  }

  // ----- Escaping of quotes inside a line -----

  /** The escaped form starts like the line, or with a backslash where the line has a triple quote. */
  lemma EscapeQuotesHead(l: string)
    ensures l == "" <==> EscapeQuotes(l) == ""
    ensures l != "" ==> EscapeQuotes(l)[0] == if QUOTES <= l then '\\' else l[0]
  {
  }

  lemma EscapedHasNoQuotesInFront(l: string, t: string)
    requires t == "" || t[0] != '"'
    ensures !(QUOTES <= EscapeQuotes(l) + t)
  {
    var e := EscapeQuotes(l) + t;
    EscapeQuotesHead(l);
    if l == "" {
      assert e == t;
    } else if !(QUOTES <= l) && l[0] == '"' {
      assert e == [l[0]] + (EscapeQuotes(l[1..]) + t);
      EscapeQuotesHead(l[1..]);
      if l[1..] == "" {
        assert e[1..] == t;
      } else if !(QUOTES <= l[1..]) && l[1] == '"' {
        assert EscapeQuotes(l[1..]) == [l[1]] + EscapeQuotes(l[2..]) by { assert l[1..][1..] == l[2..]; }
        EscapeQuotesHead(l[2..]);
        assert e[2..] == EscapeQuotes(l[2..]) + t;
      } else {
        assert e[1] == EscapeQuotes(l[1..])[0];
      }
    } else {
      assert e[0] == EscapeQuotes(l)[0];
    }
  }

  lemma {:induction false} UnescapeUndoesEscape(l: string)
    ensures UnescapeQuotes(EscapeQuotes(l)) == l
    decreases |l|
  {
    if l != "" {
      var e := EscapeQuotes(l);
      if QUOTES <= l {
        UnescapeUndoesEscape(l[3..]);
        assert e[4..] == EscapeQuotes(l[3..]);
        assert l == QUOTES + l[3..];
      } else {
        UnescapeUndoesEscape(l[1..]);
        assert e[1..] == EscapeQuotes(l[1..]);
        EscapedHasNoQuotesInFront(l[1..], "");
        assert EscapeQuotes(l[1..]) + "" == EscapeQuotes(l[1..]) == e[1..];
        assert l == [l[0]] + l[1..];
      }
    }
  }

  /** Leading white space is not touched by escaping. */
  lemma {:induction false} EscapeKeepsLead(l: string, m: nat)
    requires m <= Lead(l)
    ensures m <= |EscapeQuotes(l)| && EscapeQuotes(l)[m..] == EscapeQuotes(l[m..])
    ensures Lead(EscapeQuotes(l)) == Lead(l)
    ensures |EscapeQuotes(l)| >= |l|
  {
    EscapeQuotesHead(l);
    if l != "" && IsWhite(l[0]) {
      EscapeKeepsLead(l[1..], if m == 0 then 0 else m - 1);
      assert EscapeQuotes(l) == [l[0]] + EscapeQuotes(l[1..]);
      assert EscapeQuotes(l)[1..] == EscapeQuotes(l[1..]);
      if m > 0 {
        assert l[1..][m - 1..] == l[m..];
        assert EscapeQuotes(l)[m..] == EscapeQuotes(l)[1..][m - 1..];
      } else {
        assert l[0..] == l && EscapeQuotes(l)[0..] == EscapeQuotes(l);
      }
    } else {
      assert m == 0 && l[0..] == l && EscapeQuotes(l)[0..] == EscapeQuotes(l);
      EscapeOnlyGrows(l);
    }
  }

  lemma {:induction false} EscapeOnlyGrows(l: string)
    ensures |EscapeQuotes(l)| >= |l|
    decreases |l|
  {
    if l != "" {
      EscapeOnlyGrows(if QUOTES <= l then l[3..] else l[1..]);
    }
  }

  lemma {:induction false} EscapeAddsNoLineEnd(l: string)
    requires '\n' !in l
    ensures '\n' !in EscapeQuotes(l)
    decreases |l|
  {
    if l != "" {
      EscapeAddsNoLineEnd(if QUOTES <= l then l[3..] else l[1..]);
    }
  }

  lemma {:induction false} EscapeKeepsCr(l: string)
    ensures StripCr(EscapeQuotes(l)) == EscapeQuotes(StripCr(l))
    decreases |l|
  {
    if l != "" {
      var n := if QUOTES <= l then 3 else 1;
      var front := if QUOTES <= l then ESCAPED_QUOTES else [l[0]];
      var rest := l[n..];
      assert EscapeQuotes(l) == front + EscapeQuotes(rest);
      EscapeQuotesHead(rest);
      if rest == "" {
        assert EscapeQuotes(l) == front;
        assert n == 1 ==> l == front;
      } else {
        EscapeKeepsCr(rest);
        assert StripCr(front + EscapeQuotes(rest)) == front + StripCr(EscapeQuotes(rest));
        StripAfterFront(l, n);
      }
    }
  }

  lemma StripAfterFront(l: string, n: nat)
    requires n == (if QUOTES <= l then 3 else 1) && n < |l|
    ensures EscapeQuotes(StripCr(l)) == (if QUOTES <= l then ESCAPED_QUOTES else [l[0]]) + EscapeQuotes(StripCr(l[n..]))
  {
    var c := StripCr(l);
    assert c[n..] == StripCr(l[n..]);
    assert QUOTES <= c ==> c[..3] == l[..3];
    assert QUOTES <= l ==> c[..3] == l[..3];
  }

  // ----- The printed form is one token -----

  lemma {:induction false} BlockEndSkips(p: string, t: string, escaped: bool)
    requires '"' !in p && |t| >= 3
    requires if p == "" then !escaped else p[|p| - 1] != '\\'
    ensures BlockEnd(p + t, escaped) == Shift(|p|, BlockEnd(t, false))
  {
    if p == "" {
      assert p + t == t;
    } else {
      assert (p + t)[1..] == p[1..] + t;
      assert (p + t)[0] != '"';
      BlockEndSkips(p[1..], t, p[0] == '\\');
    }
  }

  lemma {:induction false} EscapedLineScans(l: string, t: string, escaped: bool)
    requires |t| >= 3 && t[0] != '"'
    ensures BlockEnd(EscapeQuotes(l) + t, escaped) == Shift(|EscapeQuotes(l)|, BlockEnd(t, false))
    decreases |l|
  {
    var e := EscapeQuotes(l);
    if l == "" {
      assert e + t == t;
    } else if QUOTES <= l {
      var u := EscapeQuotes(l[3..]) + t;
      EscapedLineScans(l[3..], t, false);
      assert e + t == ['\\'] + (QUOTES + u);
      assert (e + t)[1..] == QUOTES + u;
      assert (QUOTES + u)[3..] == u;
      assert BlockEnd(QUOTES + u, true) == Shift(3, BlockEnd(u, false));
    } else {
      EscapedLineScans(l[1..], t, l[0] == '\\');
      EscapedHasNoQuotesInFront(l, t);
      assert (e + t)[1..] == EscapeQuotes(l[1..]) + t;
    }
  }

  /** The search runs over `p` without finding its match there. */
  predicate Passes(p: string, t: string) {
    BlockEnd(p + t, false) == Shift(|p|, BlockEnd(t, false))
  }

  lemma PassesBoth(p: string, q: string, t: string)
    requires Passes(p, q + t) && Passes(q, t)
    ensures Passes(p + q, t)
  {
    hide BlockEnd;
    assert p + q + t == p + (q + t);
  }

  lemma PrintedLinePasses(l: string, indent: nat, t: string)
    requires |t| >= 3
    ensures Passes(PrintedLine(l, indent) + "\n", t)
  {
    hide Replace, BlockEnd;
    BlockEndSkips("\n", t, false);
    var u := "\n" + t;
    if Blank(l) {
      assert PrintedLine(l, indent) + "\n" == "\n";
    } else {
      EscapedLineScans(l, u, false);
      BlockEndSkips(Spaces(indent), EscapeQuotes(l) + u, false);
      PassesBoth(Spaces(indent), EscapeQuotes(l), u);
      PassesBoth(PrintedLine(l, indent), "\n", t);
    }
  }

  lemma {:induction false} PrintedLinesPass(ls: seq<string>, indent: nat, t: string)
    requires |t| >= 3
    ensures Passes(JoinLines(PrintedLines(ls, indent)), t)
  {
    hide BlockEnd, PrintedLine;
    if ls == [] {
      assert "" + t == t;
    } else {
      var rest := JoinLines(PrintedLines(ls[1..], indent));
      assert PrintedLines(ls, indent)[1..] == PrintedLines(ls[1..], indent);
      PrintedLinesPass(ls[1..], indent, t);
      PrintedLinePasses(ls[0], indent, rest + t);
      PassesBoth(PrintedLine(ls[0], indent) + "\n", rest, t);
    }
  }

  lemma BodyPasses(s: string, indent: nat, step: nat, t: string)
    requires |t| >= 3
    ensures Passes(BlockBody(s, indent, step), t)
  {
    hide Replace, BlockEnd, Lines, PrintedLines;
    var lines := JoinLines(PrintedLines(Lines(s), indent + step));
    BlockEndSkips(Spaces(indent), t, false);
    PrintedLinesPass(Lines(s), indent + step, Spaces(indent) + t);
    PassesBoth(lines, Spaces(indent), t);
    BlockEndSkips("\n", lines + Spaces(indent) + t, false);
    PassesBoth("\n", lines + Spaces(indent), t);
    assert BlockBody(s, indent, step) == "\n" + (lines + Spaces(indent));
  }

  /** Whatever the string, its triple-quoted form is one token, whatever follows. */
  lemma BlockIsOneToken(s: string, indent: nat, step: nat, rest: string)
    ensures TakeText(BlockQuoted(s, indent, step) + rest) ==
            Success(Lexeme(BlockString, |BlockQuoted(s, indent, step)|))
  {
    hide Replace, Lines, PrintedLines;
    var text := BlockQuoted(s, indent, step) + rest;
    var body := BlockBody(s, indent, step);
    BodyPasses(s, indent, step, QUOTES + rest);
    assert BlockEnd(QUOTES + rest, false) == Some(0);
    assert text[3..] == body + (QUOTES + rest);
    assert text[..3] == QUOTES;
  }

  // ----- What the printed form is read back as -----

  function StripAll(ls: seq<string>): seq<string> {
    seq(|ls|, i requires 0 <= i < |ls| => StripCr(ls[i]))
  }

  /** A line as it comes back when `m` is the common indentation. */
  function Kept(l: string, m: nat): string
    requires Blank(l) || m <= |l|
  {
    if Blank(l) then "" else l[m..]
  }

  function KeptLines(ls: seq<string>): seq<string> {
    var m := CommonIndent(ls);
    seq(|ls|, i requires 0 <= i < |ls| => CommonIndentIsLeast(ls, i); Kept(ls[i], GetOr(m, 0)))
  }

  /** The string the triple-quoted form of lines `ls` is read back as. */
  function Reread(ls: seq<string>, indent: nat): string {
    var kept := KeptLines(StripAll(ls));
    JoinLines(if indent == 0 then DropBlankEnd(kept) else kept)
  }

  lemma {:induction false} CommonIndentIsLeast(ls: seq<string>, i: nat)
    requires i < |ls|
    ensures !Blank(ls[i]) ==> CommonIndent(ls).Some? && CommonIndent(ls).value <= Lead(ls[i])
    ensures Blank(ls[i]) || GetOr(CommonIndent(ls), 0) <= |ls[i]|
  {
    if i > 0 {
      CommonIndentIsLeast(ls[1..], i - 1);
    }
  }

  lemma LineLenUpTo(p: string, t: string)
    requires '\n' !in p
    ensures LineLen(p) == |p| && LineLen(p + "\n" + t) == |p|
  {
    var s := p + "\n" + t;
    assert s[|p|] == '\n';
    assert forall i | 0 <= i < |p| :: s[i] == p[i];
  }

  lemma {:induction false} LinesOfJoined(ls: seq<string>, tail: string)
    requires forall l | l in ls :: '\n' !in l
    requires '\n' !in tail
    ensures Lines(JoinLines(ls) + tail) == StripAll(ls) + (if tail == "" then [] else [tail])
  {
    hide StripCr, LineLen;
    if ls == [] {
      assert JoinLines(ls) + tail == tail;
      LineLenUpTo(tail, "");
    } else {
      var rest := JoinLines(ls[1..]) + tail;
      LinesOfJoined(ls[1..], tail);
      assert JoinLines(ls) + tail == ls[0] + "\n" + rest;
      LineLenUpTo(ls[0], rest);
      assert (ls[0] + "\n" + rest)[..|ls[0]|] == ls[0];
      assert (ls[0] + "\n" + rest)[|ls[0]| + 1..] == rest;
      assert StripAll(ls) == [StripCr(ls[0])] + StripAll(ls[1..]);
    }
  }

  lemma {:induction false} LeadOfIndented(n: nat, l: string)
    ensures Lead(Spaces(n) + l) == n + Lead(l)
  {
    if n == 0 {
      assert Spaces(n) + l == l;
    } else {
      assert (Spaces(n) + l)[1..] == Spaces(n - 1) + l;
      LeadOfIndented(n - 1, l);
    }
  }

  lemma LeadOfPrinted(l: string, indent: nat)
    ensures Blank(PrintedLine(l, indent)) <==> Blank(l)
    ensures !Blank(l) ==> Lead(PrintedLine(l, indent)) == indent + Lead(l)
  {
    hide Replace;
    EscapeKeepsLead(l, 0);
    LeadOfIndented(indent, EscapeQuotes(l));
  }

  lemma BlankAfterStrip(l: string)
    ensures Blank(StripCr(l)) <==> Blank(l)
  {
    assert forall i | 0 <= i < |StripCr(l)| :: l[i] == StripCr(l)[i];
  }

  lemma StripPrinted(l: string, indent: nat)
    ensures StripCr(PrintedLine(l, indent)) == PrintedLine(StripCr(l), indent)
  {
    hide Replace;
    var e := EscapeQuotes(l);
    EscapeKeepsCr(l);
    if Blank(l) {
      assert Blank(StripCr(l));
    } else {
      assert e != "" by { EscapeOnlyGrows(l); }
      assert StripCr(Spaces(indent) + e) == Spaces(indent) + StripCr(e);
      BlankAfterStrip(l);
    }
  }

  lemma {:induction false} CommonIndentOfPrinted(ls: seq<string>, indent: nat)
    ensures CommonIndent(PrintedLines(ls, indent)) ==
            match CommonIndent(ls) case None => None case Some(m) => Some(indent + m)
  {
    hide PrintedLine;
    if ls != [] {
      assert PrintedLines(ls, indent)[1..] == PrintedLines(ls[1..], indent);
      CommonIndentOfPrinted(ls[1..], indent);
      LeadOfPrinted(ls[0], indent);
    }
  }

  lemma {:induction false} CommonIndentIgnoresBlankEnd(ls: seq<string>, l: string)
    requires Blank(l)
    ensures CommonIndent(ls + [l]) == CommonIndent(ls)
  {
    if ls == [] {
      assert (ls + [l])[1..] == [];
    } else {
      assert (ls + [l])[1..] == ls[1..] + [l];
      CommonIndentIgnoresBlankEnd(ls[1..], l);
    }
  }

  lemma {:induction false} DedentOfPrinted(l: string, indent: nat, m: nat)
    requires Blank(l) || m <= Lead(l)
    ensures Dedent(PrintedLine(l, indent), indent + m) == Kept(l, m)
  {
    hide Replace;
    if !Blank(l) {
      var p := PrintedLine(l, indent);
      EscapeKeepsLead(l, m);
      assert |p| > indent + m;
      assert p[indent + m..] == EscapeQuotes(l)[m..] == EscapeQuotes(l[m..]);
      UnescapeUndoesEscape(l[m..]);
    }
  }

  lemma {:induction false} ReplaceOfSpaces(n: nat)
    ensures UnescapeQuotes(Spaces(n)) == Spaces(n)
  {
    if n > 0 {
      assert Spaces(n)[1..] == Spaces(n - 1);
      ReplaceOfSpaces(n - 1);
    }
  }

  lemma DedentOfEnd(k: nat, indent: nat)
    ensures Blank(Dedent(Spaces(k), indent))
  {
    hide Replace;
    if k > indent {
      assert Spaces(k)[indent..] == Spaces(k - indent);
      ReplaceOfSpaces(k - indent);
    }
  }

  /** The lines between the quotes: an empty one, the printed ones, and the indentation of the closing quotes. */
  lemma LinesOfBody(s: string, indent: nat, step: nat)
    ensures Lines(BlockBody(s, indent, step)) ==
            [""] + PrintedLines(StripAll(Lines(s)), indent + step) + (if indent == 0 then [] else [Spaces(indent)])
  {
    hide Lines, PrintedLine, StripCr;
    var ps := PrintedLines(Lines(s), indent + step);
    forall l | l in ps ensures '\n' !in l {
      var i :| 0 <= i < |ps| && ps[i] == l;
      PrintedHasNoLineEnd(Lines(s)[i], indent + step);
    }
    assert ([""] + ps)[1..] == ps;
    assert BlockBody(s, indent, step) == JoinLines([""] + ps) + Spaces(indent);
    LinesOfJoined([""] + ps, Spaces(indent));
    assert StripAll([""] + ps) == [""] + PrintedLines(StripAll(Lines(s)), indent + step) by {
      assert StripCr("") == "" by { StripNothing(); }
      forall i | 0 <= i < |ps| ensures StripCr(ps[i]) == PrintedLine(StripCr(Lines(s)[i]), indent + step) {
        StripPrinted(Lines(s)[i], indent + step);
      }
    }
  }

  lemma StripNothing()
    ensures StripCr("") == ""
  {
  }

  lemma PrintedHasNoLineEnd(l: string, indent: nat)
    requires '\n' !in l
    ensures '\n' !in PrintedLine(l, indent)
  {
    hide Replace;
    EscapeAddsNoLineEnd(l);
  }

  lemma DedentOfPrintedLines(ls: seq<string>, n: nat)
    ensures var ps := PrintedLines(ls, n);
            DedentAll(ps, GetOr(CommonIndent(ps), 0)) == KeptLines(ls)
  {
    hide PrintedLine, Kept, Dedent, CommonIndent;
    var ps := PrintedLines(ls, n);
    CommonIndentOfPrinted(ls, n);
    var common := GetOr(CommonIndent(ps), 0);
    forall i | 0 <= i < |ps| ensures Dedent(ps[i], common) == KeptLines(ls)[i] {
      CommonIndentIsLeast(ls, i);
      if CommonIndent(ls).Some? {
        DedentOfPrinted(ls[i], n, CommonIndent(ls).value);
      } else {
        DedentOfNothing(ls[i], n, common);
      }
    }
  }

  lemma DedentOfNothing(l: string, indent: nat, common: nat)
    requires Blank(l)
    ensures Dedent(PrintedLine(l, indent), common) == "" == Kept(l, common)
  {
  }

  lemma DropAddedEnd(ls: seq<string>, common: nat, end: string)
    requires Blank(Dedent(end, common))
    ensures DropBlankEnd(DedentAll(ls + [end], common)) == DedentAll(ls, common)
  {
    hide Dedent;
    assert DedentAll(ls + [end], common) == DedentAll(ls, common) + [Dedent(end, common)];
  }

  /** Reading the triple-quoted form of `s` gives `Reread` of its lines. */
  lemma {:induction false} BlockReadsBack(s: string, indent: nat, step: nat)
    ensures BlockValue(BlockBody(s, indent, step)) == Reread(Lines(s), indent)
  {
    hide Lines, PrintedLine, Dedent, CommonIndent, KeptLines, PrintedLines, DedentAll, DropBlankEnd, JoinLines, Spaces;
    var ls := StripAll(Lines(s));
    var ps := PrintedLines(ls, indent + step);
    LinesOfBody(s, indent, step);
    DedentOfPrintedLines(ls, indent + step);
    var end := Spaces(indent);
    DedentOfEnd(indent, GetOr(CommonIndent(ps), 0));
    CommonIndentIgnoresBlankEnd(ps, end);
    DropAddedEnd(ps, GetOr(CommonIndent(ps), 0), end);
    var all := Lines(BlockBody(s, indent, step));
    assert all[1..] == if indent == 0 then ps else ps + [end];
    assert Trim("") == "";
    assert "" + Reread(Lines(s), indent) == Reread(Lines(s), indent);
  }

  // ----- Which strings survive -----

  predicate NoCrLf(s: string) {
    forall i | 0 < i < |s| && s[i] == '\n' :: s[i - 1] != '\r'
  }

  predicate EndsInLineEnd(s: string) {
    s != "" && s[|s| - 1] == '\n'
  }

  /**
   Printed with the closing quotes indented by `indent`, the string survives: it ends in a
   line end, has no CRLF, no line of white space only, some unindented line if it has any
   line with text, and its last line has text unless the closing quotes are indented.
   */
  predicate Intact(s: string, indent: nat) {
    var ls := Lines(s);
    && EndsInLineEnd(s)
    && NoCrLf(s)
    && (forall i | 0 <= i < |ls| && Blank(ls[i]) :: ls[i] == "")
    && GetOr(CommonIndent(ls), 0) == 0
    && (indent > 0 || !Blank(ls[|ls| - 1]))
  }

  lemma {:induction false} JoinOfLines(s: string)
    requires s == "" || EndsInLineEnd(s)
    ensures |JoinLines(Lines(s))| <= |s|
    ensures NoCrLf(s) ==> JoinLines(Lines(s)) == s && StripAll(Lines(s)) == Lines(s)
    ensures !NoCrLf(s) ==> |JoinLines(Lines(s))| < |s|
    decreases |s|
  {
    hide Lines, NoCrLf, StripCr;
    if s == "" {
      NothingInNothing();
    } else {
      var p, rest := s[..LineLen(s)], s[LineLen(s) + 1..];
      assert s == p + "\n" + rest;
      JoinOfLines(rest);
      NoCrLfSplits(p, rest);
      LinesStep(p, rest);
      assert Lines(s)[1..] == Lines(rest);
      assert StripAll(Lines(s)) == [StripCr(StripCr(p))] + StripAll(Lines(rest));
      StripShortens(p);
    }
  }

  lemma NothingInNothing()
    ensures Lines("") == [] && NoCrLf("")
  {
  }

  lemma StripShortens(p: string)
    ensures |StripCr(p)| <= |p| && (StripCr(p) != p ==> |StripCr(p)| < |p|)
  {
  }

  lemma LinesStep(p: string, rest: string)
    requires '\n' !in p
    ensures Lines(p + "\n" + rest) == [StripCr(p)] + Lines(rest)
  {
    LineLenUpTo(p, rest);
    var s := p + "\n" + rest;
    assert s[..|p|] == p && s[|p| + 1..] == rest;
  }

  lemma NoCrLfSplits(p: string, rest: string)
    requires '\n' !in p
    ensures NoCrLf(p + "\n" + rest) <==> NoCrLf(rest) && StripCr(p) == p
  {
    var s := p + "\n" + rest;
    assert s[|p|] == '\n';
    assert forall i | 0 <= i < |p| :: s[i] == p[i];
    assert forall i | 0 <= i < |rest| :: s[|p| + 1 + i] == rest[i];
    if NoCrLf(rest) && StripCr(p) == p {
      forall i | 0 < i < |s| && s[i] == '\n' ensures s[i - 1] != '\r' {
        if i > |p| + 1 { assert rest[i - |p| - 1] == '\n'; }
      }
    }
    if NoCrLf(s) {
      forall i | 0 < i < |rest| && rest[i] == '\n' ensures rest[i - 1] != '\r' {
        assert s[|p| + 1 + i] == '\n';
      }
    }
  }

  lemma {:induction false} JoinLengths(xs: seq<string>, ys: seq<string>)
    requires |xs| == |ys| && forall i | 0 <= i < |xs| :: |xs[i]| <= |ys[i]|
    ensures |JoinLines(xs)| <= |JoinLines(ys)|
    ensures |JoinLines(xs)| == |JoinLines(ys)| ==> forall i | 0 <= i < |xs| :: |xs[i]| == |ys[i]|
  {
    if xs != [] {
      JoinLengths(xs[1..], ys[1..]);
      assert forall i | 0 < i < |xs| :: xs[i] == xs[1..][i - 1] && ys[i] == ys[1..][i - 1];
    }
  }

  lemma {:induction false} JoinEndsInLineEnd(ls: seq<string>)
    ensures JoinLines(ls) == "" || EndsInLineEnd(JoinLines(ls))
  {
    if ls != [] {
      JoinEndsInLineEnd(ls[1..]);
    }
  }

  lemma DropShortens(ls: seq<string>)
    ensures DropBlankEnd(ls) != ls ==> |JoinLines(DropBlankEnd(ls))| < |JoinLines(ls)|
  {
    if DropBlankEnd(ls) != ls {
      var k := |ls| - 1;
      assert ls == ls[..k] + [ls[k]];
      JoinLinesSnoc(ls[..k], ls[k]);
    }
  }

  lemma {:induction false} SomeLineAtCommonIndent(ls: seq<string>)
    requires CommonIndent(ls).Some?
    ensures exists i :: 0 <= i < |ls| && !Blank(ls[i]) && Lead(ls[i]) == CommonIndent(ls).value
  {
    if CommonIndent(ls) == CommonIndent(ls[1..]) {
      SomeLineAtCommonIndent(ls[1..]);
      var i :| 0 <= i < |ls[1..]| && !Blank(ls[1..][i]) && Lead(ls[1..][i]) == CommonIndent(ls).value;
      assert ls[i + 1] == ls[1..][i];
    } else {
      assert !Blank(ls[0]);
    }
  }

  lemma {:induction false} SurvivesIfIntact(s: string, indent: nat)
    requires Intact(s, indent)
    ensures Reread(Lines(s), indent) == s
  {
    var ls := Lines(s);
    JoinOfLines(s);
    assert KeptLines(ls) == ls;
  }

  lemma KeptShortens(l: string, m: nat)
    requires Blank(StripCr(l)) || m <= |StripCr(l)|
    ensures |Kept(StripCr(l), m)| <= |l|
    ensures |Kept(StripCr(l), m)| == |l| ==> StripCr(l) == l && (if Blank(l) then l == "" else m == 0)
  {
  }

  lemma {:induction false} IntactIfSurvives(s: string, indent: nat)
    requires '\n' in s && Reread(Lines(s), indent) == s
    ensures Intact(s, indent)
  {
    hide CommonIndent, Lines, StripCr, Kept, JoinLines, NoCrLf, DropBlankEnd;
    var ls := Lines(s);
    var stripped := StripAll(ls);
    var kept := KeptLines(stripped);
    var m := GetOr(CommonIndent(stripped), 0);
    JoinEndsInLineEnd(if indent == 0 then DropBlankEnd(kept) else kept);
    JoinOfLines(s);
    DropShortens(kept);
    forall i | 0 <= i < |ls|
      ensures |kept[i]| <= |ls[i]|
      ensures |kept[i]| == |ls[i]| ==> StripCr(ls[i]) == ls[i] && (if Blank(ls[i]) then ls[i] == "" else m == 0)
    {
      CommonIndentIsLeast(stripped, i);
      KeptShortens(ls[i], m);
    }
    JoinLengths(kept, ls);
    assert |JoinLines(kept)| == |JoinLines(ls)| == |s|;
    assert stripped == ls;
    if CommonIndent(ls).Some? {
      SomeLineAtCommonIndent(ls);
    }
    assert indent == 0 ==> DropBlankEnd(kept) == kept;
    LastLineKept(ls, kept);
  }

  lemma LastLineKept(ls: seq<string>, kept: seq<string>)
    requires |ls| == |kept| && forall i | 0 <= i < |ls| :: |kept[i]| == |ls[i]| && (Blank(ls[i]) ==> ls[i] == "")
    ensures DropBlankEnd(kept) == kept && ls != [] ==> !Blank(ls[|ls| - 1])
  {
  }

  /**
   A string with a line end, written in triple quotes by a formatter at `indent`, is read
   back unchanged exactly when it is intact, for every indentation step.
   */
  lemma {:induction false} BlockRoundTrip(s: string, indent: nat, step: nat)
    requires '\n' in s
    ensures Intact(s, indent) ==> BlockValue(BlockBody(s, indent, step)) == s
    ensures BlockValue(BlockBody(s, indent, step)) == s ==> Intact(s, indent)
  {
    BlockReadsBack(s, indent, step);
    if Intact(s, indent) {
      SurvivesIfIntact(s, indent);
    }
    if Reread(Lines(s), indent) == s {
      IntactIfSurvives(s, indent);
    }
  }
}
