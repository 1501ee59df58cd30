/** Strings over several lines: printed in triple quotes, scanned, and read by `unquote_block_string`. */
module BlockStrings {
  import opened Wrappers
  import opened Lexer

  const ESCAPED_QUOTES: string := "\\\"\"\""

  // ----- Lines and white space, as Rust's `str` sees them -----

  predicate IsWhite(c: char) {
    || '\U{0009}' <= c <= '\U{000D}' || c == ' ' || c == '\U{0085}' || c == '\U{00A0}' || c == '\U{1680}'
    || '\U{2000}' <= c <= '\U{200A}' || c == '\U{2028}' || c == '\U{2029}' || c == '\U{202F}'
    || c == '\U{205F}' || c == '\U{3000}'
  }

  predicate Blank(s: string) {
    forall i | 0 <= i < |s| :: IsWhite(s[i])
  }

  /** Number of leading white space characters. */
  function Lead(s: string): (n: nat)
    ensures n <= |s|
    ensures n == |s| <==> Blank(s)
  {
    if s == "" || !IsWhite(s[0]) then 0
    else
      assert Blank(s) <==> Blank(s[1..]) by {
        assert forall i | 0 < i < |s| :: s[i] == s[1..][i - 1];
      }
      1 + Lead(s[1..])
  }

  function TrimEnd(s: string): string {
    if s == "" || !IsWhite(s[|s| - 1]) then s else TrimEnd(s[..|s| - 1])
  }

  function Trim(s: string): string {
    TrimEnd(s[Lead(s)..])
  }

  function LineLen(s: string): (n: nat)
    ensures n <= |s|
    ensures n < |s| ==> s[n] == '\n'
    ensures forall i | 0 <= i < n :: s[i] != '\n'
  {
    if s == "" || s[0] == '\n' then 0 else 1 + LineLen(s[1..])
  }

  function StripCr(s: string): string {
    if s != "" && s[|s| - 1] == '\r' then s[..|s| - 1] else s
  }

  /** `str::lines`: line ends are LF or CRLF, and the last line need not have one. */
  function Lines(s: string): (ls: seq<string>)
    ensures forall l | l in ls :: '\n' !in l
    ensures ls == [] <==> s == ""
    decreases |s|
  {
    if s == "" then []
    else if LineLen(s) == |s| then [s]
    else [StripCr(s[..LineLen(s)])] + Lines(s[LineLen(s) + 1..])
  }

  function JoinLines(ls: seq<string>): string {
    if ls == [] then "" else ls[0] + "\n" + JoinLines(ls[1..])
  }

  /** `str::replace`: matches are found left to right and do not overlap. */
  function Replace(s: string, pat: string, to: string): string
    requires pat != ""
    decreases |s|
  {
    if s == "" then ""
    else if pat <= s then to + Replace(s[|pat|..], pat, to)
    else [s[0]] + Replace(s[1..], pat, to)
  }

  function Spaces(n: nat): (s: string)
    ensures |s| == n
    ensures forall i | 0 <= i < n :: s[i] == ' '
  {
    if n == 0 then "" else " " + Spaces(n - 1)
  }

  // ----- Printing -----

  function PrintedLine(l: string, indent: nat): string {
    if Blank(l) then "" else Spaces(indent) + Replace(l, QUOTES, ESCAPED_QUOTES)
  }

  function PrintedLines(ls: seq<string>, indent: nat): seq<string> {
    seq(|ls|, i requires 0 <= i < |ls| => PrintedLine(ls[i], indent))
  }

  /** What stands between the triple quotes, printed at `indent` with `step` spaces more for the lines. */
  function BlockBody(s: string, indent: nat, step: nat): string {
    "\n" + JoinLines(PrintedLines(Lines(s), indent + step)) + Spaces(indent)
  }

  function BlockQuoted(s: string, indent: nat, step: nat): string {
    QUOTES + BlockBody(s, indent, step) + QUOTES
  }

  // ----- Reading -----

  /** The least indentation of a line that is not blank. */
  function CommonIndent(ls: seq<string>): Option<nat> {
    if ls == [] then None
    else
      var rest := CommonIndent(ls[1..]);
      if Blank(ls[0]) then rest
      else if rest.Some? && rest.value <= Lead(ls[0]) then rest
      else Some(Lead(ls[0]))
  }

  function Dedent(l: string, indent: nat): string {
    if |l| > indent then Replace(l[indent..], ESCAPED_QUOTES, QUOTES) else ""
  }

  function DedentAll(ls: seq<string>, indent: nat): seq<string> {
    seq(|ls|, i requires 0 <= i < |ls| => Dedent(ls[i], indent))
  }

  function DropBlankEnd(ls: seq<string>): seq<string> {
    if ls != [] && Blank(ls[|ls| - 1]) then ls[..|ls| - 1] else ls
  }

  function GetOr(o: Option<nat>, default: nat): nat {
    if o.Some? then o.value else default
  }

  /** The string whose triple-quoted form has `body` between the quotes. */
  function BlockValue(body: string): string {
    var ls := Lines(body);
    if ls == [] then ""
    else
      var first := Trim(ls[0]);
      var rest := DedentAll(ls[1..], GetOr(CommonIndent(ls[1..]), 0));
      (if first == "" then "" else first + "\n") + JoinLines(DropBlankEnd(rest))
  }

  lemma {:induction false} JoinLinesSnoc(ls: seq<string>, l: string)
    ensures JoinLines(ls + [l]) == JoinLines(ls) + l + "\n"
  {
    if ls == [] {
      assert ls + [l] == [l];
    } else {
      assert (ls + [l])[1..] == ls[1..] + [l];
      JoinLinesSnoc(ls[1..], l);
    }
  }

  lemma {:induction false} TrimIsEmptyIffBlank(s: string)
    ensures Trim(s) == "" <==> Blank(s)
  {
    var t := s[Lead(s)..];
    if t != "" {
      LeadStops(s);
      TrimEndKeeps(t);
    }
  }

  lemma TrimIsNotBlank(s: string)
    ensures Trim(s) != "" ==> !Blank(Trim(s))
  {
    if Lead(s) < |s| {
      LeadStops(s);
      TrimEndKeeps(s[Lead(s)..]);
      assert !IsWhite(Trim(s)[0]);
    }
  }

  lemma {:induction false} LeadStops(s: string)
    requires Lead(s) < |s|
    ensures !IsWhite(s[Lead(s)])
  {
    if IsWhite(s[0]) {
      LeadStops(s[1..]);
    }
  }

  lemma {:induction false} TrimEndKeeps(s: string)
    requires s != "" && !IsWhite(s[0])
    ensures TrimEnd(s) != "" && TrimEnd(s)[0] == s[0]
  {
    if IsWhite(s[|s| - 1]) {
      TrimEndKeeps(s[..|s| - 1]);
    }
  }

  /** Cutting off a last line that turned out blank drops it from the lines joined. */
  lemma {:induction false} CutLastLine(head: string, rest: seq<string>, result: string, lastLine: nat)
    requires head == "" || !Blank(head)
    requires result == head + JoinLines(rest)
    requires lastLine == if rest == [] then 0 else |head + JoinLines(rest[..|rest| - 1])|
    ensures lastLine <= |result|
    ensures head + JoinLines(DropBlankEnd(rest)) ==
            if Trim(result[lastLine..]) == "" then result[..lastLine] else result
  {
    if rest == [] {
      assert result == head == result[lastLine..];
    } else {
      var k := |rest| - 1;
      var init, last := rest[..k], rest[k];
      JoinLinesSnoc(init, last);
      assert rest == init + [last];
      assert result == (head + JoinLines(init)) + (last + "\n");
      assert result[lastLine..] == last + "\n";
      assert result[..lastLine] == head + JoinLines(init);
      BlankLineEnd(last);
    }
    TrimIsEmptyIffBlank(result[lastLine..]);
  }

  lemma BlankLineEnd(l: string)
    ensures Blank(l + "\n") <==> Blank(l)
  {
    assert forall j | 0 <= j < |l| :: l[j] == (l + "\n")[j];
  }

  /** `unquote_block_string` on a block string token. */
  method UnquoteBlockString(src: string) returns (result: string)
    requires |src| >= 6 && QUOTES <= src
    ensures result == BlockValue(src[3..|src| - 3])
  {
    hide Replace, CommonIndent, Trim, DropBlankEnd, Lines, Spaces;
    var lines := Lines(src[3..|src| - 3]);
    if lines == [] {
      return "";
    }
    var indent := GetOr(CommonIndent(lines[1..]), 0);
    result := "";
    var stripped := Trim(lines[0]);
    if stripped != "" {
      result := result + stripped + "\n";
      TrimIsNotBlank(lines[0]);
      BlankLineEnd(stripped);
      assert result == stripped + "\n";
    }
    ghost var head := result;
    ghost var rest := DedentAll(lines[1..], indent);
    var lastLine := 0;
    var i := 1;
    while i < |lines|
      invariant 1 <= i <= |lines|
      invariant result == head + JoinLines(rest[..i - 1])
      invariant lastLine == if i == 1 then 0 else |head + JoinLines(rest[..i - 2])|
    {
      lastLine := |result|;
      if |lines[i]| > indent {
        result := result + Replace(lines[i][indent..], ESCAPED_QUOTES, QUOTES);
      }
      result := result + "\n";
      assert rest[..i] == rest[..i - 1] + [rest[i - 1]];
      JoinLinesSnoc(rest[..i - 1], rest[i - 1]);
      i := i + 1;
    }
    assert rest[..i - 1] == rest;
    CutLastLine(head, rest, result, lastLine);
    if Trim(result[lastLine..]) == "" {
      result := result[..lastLine];
    }
  }
}
