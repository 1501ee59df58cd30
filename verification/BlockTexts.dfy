/** What is written between triple quotes, line by line, and the value it stands for. */
module BlockTexts {
  import opened Lexer
  import opened BlockStrings
  import opened BlockStringRoundTrip

  /** The characters `str::trim` takes off: the White_Space characters of Unicode. */
  lemma WhiteCharacters(c: char)
    ensures IsWhite(c) <==>
            c in {'\t', '\n', '\U{000B}', '\U{000C}', '\r', ' ', '\U{0085}', '\U{00A0}', '\U{1680}', '\U{2000}',
                  '\U{2001}', '\U{2002}', '\U{2003}', '\U{2004}', '\U{2005}', '\U{2006}', '\U{2007}', '\U{2008}',
                  '\U{2009}', '\U{200A}', '\U{2028}', '\U{2029}', '\U{202F}', '\U{205F}', '\U{3000}'}
  {
  }

  // ----- Lines -----

  /** Lines end with LF or CRLF, or with the text; neither is part of the line. */
  lemma LinesOf(l: string, t: string)
    requires '\n' !in l
    ensures (l == "" || l[|l| - 1] != '\r') ==> Lines(l + "\n" + t) == [l] + Lines(t)
    ensures Lines(l + "\r\n" + t) == [l] + Lines(t)
    ensures Lines(l) == if l == "" then [] else [l]
  {
    LineLenUpTo(l, t);
    var s := l + "\n" + t;
    assert s[..|l|] == l && s[|l| + 1..] == t;
    var cr := l + "\r";
    LineLenUpTo(cr, t);
    var u := cr + "\n" + t;
    assert l + "\r\n" + t == u && u[..|cr|] == cr && u[|cr| + 1..] == t;
    assert StripCr(cr) == l;
  }

  // ----- The first line -----

  lemma {:induction false} LeadIs(before: string, s: string)
    requires Blank(before) && (s == "" || !IsWhite(s[0]))
    ensures Lead(before + s) == |before|
  {
    if before == "" {
      assert before + s == s;
    } else {
      assert (before + s)[1..] == before[1..] + s;
      LeadIs(before[1..], s);
    }
  }

  lemma {:induction false} TrimEndIs(s: string, after: string)
    requires Blank(after) && (s == "" || !IsWhite(s[|s| - 1]))
    ensures TrimEnd(s + after) == s
  {
    if after == "" {
      assert s + after == s;
    } else {
      var init := after[..|after| - 1];
      assert (s + after)[..|s + after| - 1] == s + init;
      TrimEndIs(s, init);
    }
  }

  /** A text between white characters that neither starts nor ends with one. */
  lemma TrimmedIs(before: string, s: string, after: string)
    requires Blank(before) && Blank(after)
    requires s != "" ==> !IsWhite(s[0]) && !IsWhite(s[|s| - 1])
    ensures Trim(before + s + after) == s
  {
    if s == "" {
      assert Blank(before + s + after);
    } else {
      LeadIs(before, s + after);
      assert before + s + after == before + (s + after);
      assert (before + s + after)[|before|..] == s + after;
      TrimEndIs(s, after);
    }
  }

  // ----- Indentation and quotes -----

  /** `k` white characters start every line that is not blank, and no more start one of them. */
  predicate IsShared(ls: seq<string>, k: nat) {
    && (forall i | 0 <= i < |ls| && !Blank(ls[i]) :: k <= |ls[i]| && Blank(ls[i][..k]))
    && (exists i | 0 <= i < |ls| :: k < |ls[i]| && !IsWhite(ls[i][k]))
  }

  lemma {:induction false} LeadIsAtLeast(l: string, k: nat)
    requires k <= |l|
    ensures Blank(l[..k]) <==> k <= Lead(l)
  {
    if k > 0 {
      LeadIsAtLeast(l[1..], k - 1);
      assert l[..k] == [l[0]] + l[1..][..k - 1];
    }
  }

  lemma SharedIsCommon(ls: seq<string>, k: nat)
    requires IsShared(ls, k) || (k == 0 && forall i | 0 <= i < |ls| :: Blank(ls[i]))
    ensures GetOr(CommonIndent(ls), 0) == k
  {
    hide CommonIndent, Lead;
    if CommonIndent(ls).Some? {
      SomeLineAtCommonIndent(ls);
      var j :| 0 <= j < |ls| && !Blank(ls[j]) && Lead(ls[j]) == CommonIndent(ls).value;
      LeadIsAtLeast(ls[j], k);
    }
    if IsShared(ls, k) {
      var i :| 0 <= i < |ls| && k < |ls[i]| && !IsWhite(ls[i][k]);
      CommonIndentIsLeast(ls, i);
      LeadIsAtLeast(ls[i], k + 1);
      assert ls[i][..k + 1][k] == ls[i][k];
    }
  }

  /** Reading takes the backslash off the first escaped triple quote and goes on behind it. */
  lemma {:induction false} FirstIsUnescaped(p: string, t: string)
    requires forall i | 0 <= i < |p| :: !(ESCAPED_QUOTES <= (p + ESCAPED_QUOTES)[i..])
    ensures UnescapeQuotes(p + ESCAPED_QUOTES + t) == p + QUOTES + UnescapeQuotes(t)
  {
    var s := p + ESCAPED_QUOTES + t;
    if p == "" {
      assert s == ESCAPED_QUOTES + t && s[4..] == t;
    } else {
      var u := p + ESCAPED_QUOTES;
      assert u[0..] == u;
      assert s[..4] == u[..4];
      assert s[1..] == p[1..] + ESCAPED_QUOTES + t;
      assert forall i | 0 <= i < |p| - 1 :: (p[1..] + ESCAPED_QUOTES)[i..] == u[i + 1..];
      FirstIsUnescaped(p[1..], t);
    }
  }

  lemma {:induction false} NoneIsUnescaped(p: string)
    requires forall i | 0 <= i < |p| :: !(ESCAPED_QUOTES <= p[i..])
    ensures UnescapeQuotes(p) == p
  {
    if p != "" {
      assert p[0..] == p;
      assert forall i | 0 <= i < |p| - 1 :: p[1..][i..] == p[i + 1..];
      NoneIsUnescaped(p[1..]);
    }
  }

  lemma {:induction false} UnescapedIsBlank(l: string)
    ensures Blank(UnescapeQuotes(l)) <==> Blank(l)
    decreases |l|
  {
    if ESCAPED_QUOTES <= l {
      assert UnescapeQuotes(l)[0] == '"';
    } else if l != "" {
      UnescapedIsBlank(l[1..]);
      assert l == [l[0]] + l[1..];
      assert UnescapeQuotes(l) == [l[0]] + UnescapeQuotes(l[1..]);
      BlankCons(l[0], l[1..]);
      BlankCons(l[0], UnescapeQuotes(l[1..]));
    }
  }

  lemma BlankCons(c: char, l: string)
    ensures Blank([c] + l) <==> IsWhite(c) && Blank(l)
  {
    var s := [c] + l;
    assert s[0] == c;
    assert forall i | 0 <= i < |l| :: l[i] == s[i + 1];
  }

  // ----- The whole -----

  /** A line without its first `k` characters and with its escaped quotes unescaped. */
  function WithoutIndent(l: string, k: nat): string {
    if |l| <= k then "" else UnescapeQuotes(l[k..])
  }

  /** The last line goes if it is blank. */
  function LinesKept(ls: seq<string>, k: nat): seq<string> {
    var n := if ls != [] && Blank(ls[|ls| - 1]) then |ls| - 1 else |ls|;
    seq(n, i requires 0 <= i < n => WithoutIndent(ls[i], k))
  }

  lemma DedentedIsBlank(l: string, k: nat)
    requires !Blank(l) ==> k <= |l| && Blank(l[..k])
    ensures Blank(Dedent(l, k)) <==> Blank(l)
    ensures Dedent(l, k) == WithoutIndent(l, k)
  {
    if |l| > k {
      UnescapedIsBlank(l[k..]);
      assert forall i | 0 <= i < |l| :: l[i] == if i < k then l[..k][i] else l[k..][i - k];
    }
  }

  /** The first line is trimmed and kept unless that empties it; the others lose the indentation they share. */
  lemma BlockStringIsRead(body: string, before: string, first: string, after: string, ls: seq<string>, k: nat)
    requires Lines(body) == [before + first + after] + ls
    requires Blank(before) && Blank(after)
    requires first != "" ==> !IsWhite(first[0]) && !IsWhite(first[|first| - 1])
    requires IsShared(ls, k) || (k == 0 && forall i | 0 <= i < |ls| :: Blank(ls[i]))
    ensures BlockValue(body) == (if first == "" then "" else first + "\n") + JoinLines(LinesKept(ls, k))
  {
    TrimmedIs(before, first, after);
    SharedIsCommon(ls, k);
    assert Lines(body)[1..] == ls;
    KeptIsDedented(ls, k);
  }

  lemma KeptIsDedented(ls: seq<string>, k: nat)
    requires IsShared(ls, k) || (k == 0 && forall i | 0 <= i < |ls| :: Blank(ls[i]))
    ensures LinesKept(ls, k) == DropBlankEnd(DedentAll(ls, k))
  {
    hide Dedent, WithoutIndent;
    forall i | 0 <= i < |ls|
      ensures Blank(Dedent(ls[i], k)) <==> Blank(ls[i])
      ensures Dedent(ls[i], k) == WithoutIndent(ls[i], k)
    {
      DedentedIsBlank(ls[i], k);
    }
  }
}
