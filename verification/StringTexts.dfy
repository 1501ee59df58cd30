/** What is written between the quotes of a one-line string, piece by piece, and the value it stands for. */
module StringTexts {
  import opened Wrappers
  import opened Numerals
  import opened QuotedStrings

  function Hex(c: char): int {
    if '0' <= c <= '9' then c as int - '0' as int
    else if 'a' <= c <= 'f' then c as int - 'a' as int + 10
    else if 'A' <= c <= 'F' then c as int - 'A' as int + 10
    else -1
  }

  /** Four hexadecimal digits, or a plus sign and three. */
  predicate IsCode(u: string, c: char) {
    && |u| == 4
    && (u[0] == '+' || Hex(u[0]) >= 0)
    && Hex(u[1]) >= 0
    && Hex(u[2]) >= 0
    && Hex(u[3]) >= 0
    && c as int == (if u[0] == '+' then 0 else 4096 * Hex(u[0])) + 256 * Hex(u[1]) + 16 * Hex(u[2]) + Hex(u[3])
  }

  /** One character as written: itself or an escape. `\b` is U+0010 here, not the backspace U+0008. */
  predicate IsUnit(u: string, c: char) {
    || (u == [c] && c != '\\')
    || (u == "\\\"" && c == '"')
    || (u == "\\\\" && c == '\\')
    || (u == "\\/" && c == '/')
    || (u == "\\b" && c == '\U{0010}')
    || (u == "\\f" && c == '\U{000C}')
    || (u == "\\n" && c == '\n')
    || (u == "\\r" && c == '\r')
    || (u == "\\t" && c == '\t')
    || (|u| == 6 && u[0] == '\\' && u[1] == 'u' && IsCode(u[2..], c))
  }

  /** A backslash with nothing behind it, with too little, or with what it cannot escape. */
  predicate IsBad(s: string, e: UnquoteError) {
    && s != ""
    && s[0] == '\\'
    && match e
       case SlashAtEnd => |s| == 1
       case ShortUnicodeEscape => 1 < |s| < 6 && s[1] == 'u'
       case BadCodePoint => |s| >= 6 && s[1] == 'u' && forall c: char :: !IsCode(s[2..6], c)
       case BadEscape => |s| > 1 && s[1] !in "\"\\/bfnrtu"
  }

  ghost predicate StandsFor(s: string, r: Result<string, UnquoteError>)
    decreases |s|
  {
    match r
    case Success(v) =>
      if v == "" then s == ""
      else exists n | 0 < n <= |s| :: IsUnit(s[..n], v[0]) && StandsFor(s[n..], Success(v[1..]))
    case Failure(e) =>
      IsBad(s, e) || exists n, c | 0 < n <= |s| :: IsUnit(s[..n], c) && StandsFor(s[n..], r)
  }

  lemma HexIsDigit(c: char)
    ensures DigitValue(c) == if Hex(c) >= 0 then Some(Hex(c)) else None
  {
  }

  lemma MoreDigits(s: string)
    requires |s| > 1
    ensures DigitsValue(s, 16) ==
            match (DigitsValue(s[..|s| - 1], 16), Hex(s[|s| - 1]) >= 0)
            case (Some(n), true) => Some(16 * n + Hex(s[|s| - 1]))
            case _ => None
  {
    HexIsDigit(s[|s| - 1]);
  }

  lemma ThreeDigits(s: string)
    requires |s| == 3
    ensures DigitsValue(s, 16) ==
            if Hex(s[0]) >= 0 && Hex(s[1]) >= 0 && Hex(s[2]) >= 0
            then Some(256 * Hex(s[0]) + 16 * Hex(s[1]) + Hex(s[2])) else None
  {
    HexIsDigit(s[0]);
    assert DigitsValue([s[0]], 16) == DigitValue(s[0]);
    assert s[..2][..1] == [s[0]];
    hide DigitsValue;
    MoreDigits(s[..2]);
    MoreDigits(s);
  }

  lemma FourDigits(u: string)
    requires |u| == 4
    ensures var digits := if u[0] == '+' then u[1..] else u;
            DigitsValue(digits, 16) ==
            if (u[0] == '+' || Hex(u[0]) >= 0) && Hex(u[1]) >= 0 && Hex(u[2]) >= 0 && Hex(u[3]) >= 0
            then Some((if u[0] == '+' then 0 else 4096 * Hex(u[0])) + 256 * Hex(u[1]) + 16 * Hex(u[2]) + Hex(u[3]))
            else None
  {
    hide DigitsValue, Hex;
    if u[0] == '+' {
      ThreeDigits(u[1..]);
    } else {
      ThreeDigits(u[..3]);
      MoreDigits(u);
    }
  }

  lemma CodePointIs(u: string, c: char)
    requires |u| == 4
    ensures CodePoint(u) == Some(c) <==> IsCode(u, c)
  {
    FourDigits(u);
    assert "+" <= u <==> u[0] == '+';
    hide DigitsValue, Hex;
  }

  lemma CodeIsRead(s: string, c: char)
    requires |s| >= 6 && s[0] == '\\' && s[1] == 'u' && IsCode(s[2..6], c)
    ensures UnquoteBody(s) == Prepend(c, UnquoteBody(s[6..]))
  {
    hide IsCode, CodePoint;
    CodePointIs(s[2..6], c);
  }

  lemma LetterIs(letter: char, c: char)
    ensures IsUnit(['\\', letter], c) <==> Unescape(letter) == Some(c)
  {
    assert forall x: char :: ['\\', letter] == ['\\', x] <==> letter == x;
    assert ['\\', letter] == "\\\"" <==> letter == '"';
    assert ['\\', letter] == "\\\\" <==> letter == '\\';
  }

  lemma LetterIsRead(s: string, c: char)
    requires |s| >= 2 && s[0] == '\\' && IsUnit(s[..2], c)
    ensures UnquoteBody(s) == Prepend(c, UnquoteBody(s[2..]))
  {
    hide IsUnit, CodePoint;
    assert s[..2] == ['\\', s[1]];
    LetterIs(s[1], c);
  }

  lemma UnitIsRead(s: string, n: nat, c: char)
    requires 0 < n <= |s| && IsUnit(s[..n], c)
    ensures UnquoteBody(s) == Prepend(c, UnquoteBody(s[n..]))
  {
    var u := s[..n];
    assert u[0] == s[0];
    hide IsCode, CodePoint;
    if n == 1 {
      assert UnquoteBody(s) == Prepend(s[0], UnquoteBody(s[1..]));
    } else {
      hide UnquoteBody;
      assert u[1] == s[1];
      if n == 2 {
        LetterIsRead(s, c);
      } else {
        assert u[2..] == s[2..6];
        CodeIsRead(s, c);
      }
    }
  }

  lemma BadIsRefused(s: string, e: UnquoteError)
    requires IsBad(s, e)
    ensures UnquoteBody(s) == Failure(e)
  {
    if e.BadCodePoint? && CodePoint(s[2..6]).Some? {
      CodePointIs(s[2..6], CodePoint(s[2..6]).value);
    }
  }

  lemma UnitOrBad(s: string) returns (n: nat, c: char, bad: Option<UnquoteError>)
    requires s != ""
    ensures bad.None? ==> 0 < n <= |s| && IsUnit(s[..n], c)
    ensures bad.Some? ==> IsBad(s, bad.value)
  {
    n, c, bad := 1, s[0], None;
    if s[0] == '\\' {
      if |s| == 1 {
        bad := Some(SlashAtEnd);
      } else if s[1] != 'u' {
        n := 2;
        assert s[..2] == ['\\', s[1]];
        if Unescape(s[1]).Some? {
          c := Unescape(s[1]).value;
        } else {
          bad := Some(BadEscape);
        }
      } else if |s| < 6 {
        bad := Some(ShortUnicodeEscape);
      } else if code: char :| IsCode(s[2..6], code) {
        n, c := 6, code;
        assert s[..6][2..] == s[2..6];
      } else {
        bad := Some(BadCodePoint);
      }
    }
  }

  lemma {:induction false} StandingForIsRead(s: string, r: Result<string, UnquoteError>)
    requires StandsFor(s, r)
    ensures UnquoteBody(s) == r
    decreases |s|
  {
    hide IsUnit, IsBad;
    match r
    case Success(v) =>
      if v != "" {
        var n :| 0 < n <= |s| && IsUnit(s[..n], v[0]) && StandsFor(s[n..], Success(v[1..]));
        hide UnquoteBody;
        UnitIsRead(s, n, v[0]);
        StandingForIsRead(s[n..], Success(v[1..]));
        assert v == [v[0]] + v[1..];
      }
    case Failure(e) =>
      hide UnquoteBody;
      if IsBad(s, e) {
        BadIsRefused(s, e);
      } else {
        var n, c :| 0 < n <= |s| && IsUnit(s[..n], c) && StandsFor(s[n..], r);
        UnitIsRead(s, n, c);
        StandingForIsRead(s[n..], r);
      }
  }

  lemma {:induction false} ReadStandsFor(s: string)
    ensures StandsFor(s, UnquoteBody(s))
    decreases |s|
  {
    hide IsUnit, IsBad;
    if s != "" {
      hide UnquoteBody;
      var n, c, bad := UnitOrBad(s);
      if bad.Some? {
        BadIsRefused(s, bad.value);
      } else {
        UnitIsRead(s, n, c);
        ReadStandsFor(s[n..]);
        if UnquoteBody(s[n..]).Success? {
          assert UnquoteBody(s).value[1..] == UnquoteBody(s[n..]).value;
        }
      }
    }
  }

  /** The value of a quoted string is what its characters and escapes stand for, and so is the error. */
  lemma {:induction false} UnquotedExactlyWhen(s: string, r: Result<string, UnquoteError>)
    ensures UnquoteBody(s) == r <==> StandsFor(s, r)
    decreases |s|
  {
    hide UnquoteBody, IsUnit, IsBad;
    if StandsFor(s, r) {
      StandingForIsRead(s, r);
    }
    ReadStandsFor(s);
  }
}
