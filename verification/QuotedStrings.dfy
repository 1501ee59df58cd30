/** Strings on one line: printed by `Formatter::write_quoted`, scanned, and read by `unquote_string`. */
module QuotedStrings {
  import opened Wrappers
  import opened Lexer
  import opened Numerals

  datatype UnquoteError = SlashAtEnd | BadEscape | ShortUnicodeEscape | BadCodePoint

  // ----- Printing -----

  predicate IsPrintable(c: char) {
    c == '\r' || c == '\t' || ('\U{0020}' <= c <= '\U{FFFF}')
  }

  function Pad4(digits: string): string
    decreases 4 - |digits|
  {
    if |digits| >= 4 then digits else Pad4("0" + digits)
  }

  /** A character as it is written between quotes.  The code of the last case is decimal. */
  function Escape(c: char): (s: string) {
    if c == '\r' then "\\r"
    else if c == '\n' then "\\n"
    else if c == '\t' then "\\t"
    else if c == '"' then "\\\""
    else if c == '\\' then "\\\\"
    else if '\U{0020}' <= c <= '\U{FFFF}' then [c]
    else "\\u" + Pad4(Numeral(c as int, 10))
  }

  function EscapeAll(s: string): string {
    if s == "" then "" else Escape(s[0]) + EscapeAll(s[1..])
  }

  function Quoted(s: string): string {
    "\"" + EscapeAll(s) + "\""
  }

  // ----- Reading -----

  /** The character an escape letter other than `u` stands for. */
  function Unescape(c: char): Option<char> {
    if c == '"' || c == '\\' || c == '/' then Some(c)
    else if c == 'b' then Some('\U{0010}')
    else if c == 'f' then Some('\U{000C}')
    else if c == 'n' then Some('\n')
    else if c == 'r' then Some('\r')
    else if c == 't' then Some('\t')
    else None
  }

  function CodePoint(hex: string): Option<char> {
    match ParseUnsigned(hex, 16, 0xFFFF_FFFF)
    case None => None
    case Some(n) => if n < 0xD800 || 0xE000 <= n < 0x11_0000 then Some(n as char) else None
  }

  function Prepend(c: char, r: Result<string, UnquoteError>): Result<string, UnquoteError> {
    match r
    case Failure(e) => Failure(e)
    case Success(t) => Success([c] + t)
  }

  /** The string written between the quotes as `s`. */
  function UnquoteBody(s: string): Result<string, UnquoteError> {
    if s == "" then Success("")
    else if s[0] != '\\' then Prepend(s[0], UnquoteBody(s[1..]))
    else if |s| == 1 then Failure(SlashAtEnd)
    else if s[1] == 'u' then
      if |s| < 6 then Failure(ShortUnicodeEscape)
      else
        match CodePoint(s[2..6])
        case None => Failure(BadCodePoint)
        case Some(c) => Prepend(c, UnquoteBody(s[6..]))
    else
      match Unescape(s[1])
      case None => Failure(BadEscape)
      case Some(c) => Prepend(c, UnquoteBody(s[2..]))
  }

  function Append(res: string, r: Result<string, UnquoteError>): Result<string, UnquoteError> {
    match r
    case Failure(e) => Failure(e)
    case Success(t) => Success(res + t)
  }

  /** The loop of `unquote_string` over the characters between the quotes of a token. */
  method UnquoteString(s: string) returns (r: Result<string, UnquoteError>)
    requires |s| >= 2 && s[0] == '"' && s[|s| - 1] == '"'
    ensures r == UnquoteBody(s[1..|s| - 1])
  {
    var res := "";
    var chars := s[1..|s| - 1];
    AppendEmpty(UnquoteBody(chars));
    while chars != ""
      invariant UnquoteBody(s[1..|s| - 1]) == Append(res, UnquoteBody(chars))
      decreases |chars|
    {
      var before := chars;
      var c := chars[0];
      chars := chars[1..];
      if c == '\\' {
        if chars == "" {
          return Failure(SlashAtEnd);
        }
        var letter := chars[0];
        chars := chars[1..];
        assert before[2..] == chars;
        if letter == 'u' {
          var hex := "";
          while |hex| < 4 && chars != ""
            invariant |hex| <= 4 && |hex| + |chars| == |before| - 2
            invariant hex == before[2..2 + |hex|] && chars == before[2 + |hex|..]
          {
            hex := hex + [chars[0]];
            chars := chars[1..];
          }
          if |hex| < 4 {
            return Failure(ShortUnicodeEscape);
          }
          var code := CodePoint(hex);
          if code.None? {
            return Failure(BadCodePoint);
          }
          AppendPrepend(res, code.value, UnquoteBody(chars));
          res := res + [code.value];
        } else {
          var plain := Unescape(letter);
          if plain.None? {
            return Failure(BadEscape);
          }
          AppendPrepend(res, plain.value, UnquoteBody(chars));
          res := res + [plain.value];
        }
      } else {
        AppendPrepend(res, c, UnquoteBody(chars));
        res := res + [c];
      }
    }
    assert res + "" == res;
    return Success(res);
  }

  lemma AppendEmpty(r: Result<string, UnquoteError>)
    ensures Append("", r) == r
  {
    if r.Success? {
      assert "" + r.value == r.value;
    }
  }

  lemma AppendPrepend(res: string, c: char, r: Result<string, UnquoteError>)
    ensures Append(res, Prepend(c, r)) == Append(res + [c], r)
  {
    if r.Success? {
      assert res + ([c] + r.value) == res + [c] + r.value;
    }
  }

  /** A character that neither ends a quoted string nor escapes in it. */
  predicate IsPlain(c: char) {
    c != '"' && c != '\\' && c != '\n'
  }

  lemma {:induction false} StringEndSkipsPlain(p: string, t: string)
    requires forall i | 0 <= i < |p| :: IsPlain(p[i])
    ensures StringEnd(p + t, false) == Shift(|p|, StringEnd(t, false))
  {
    if p == "" {
      assert p + t == t;
    } else {
      assert (p + t)[1..] == p[1..] + t;
      StringEndSkipsPlain(p[1..], t);
    }
  }

  lemma {:induction false} DigitsArePlain(s: string)
    requires DigitsValue(s, 16).Some?
    ensures forall i | 0 <= i < |s| :: IsPlain(s[i])
  {
    if |s| > 1 {
      DigitsArePlain(s[..|s| - 1]);
      assert forall i | 0 <= i < |s| - 1 :: s[i] == s[..|s| - 1][i];
    }
  }

  lemma HexIsPlain(hex: string)
    requires CodePoint(hex).Some?
    ensures forall i | 0 <= i < |hex| :: IsPlain(hex[i])
  {
    if "+" <= hex {
      DigitsArePlain(hex[1..]);
      assert forall i | 0 < i < |hex| :: hex[i] == hex[1..][i - 1];
    } else {
      DigitsArePlain(hex);
    }
  }

  /** No token the tokenizer cuts off makes `unquote_string` run into a backslash at its end. */
  lemma {:induction false} ScannedBodyEndsWell(s: string)
    requires StringEnd(s, false).Some?
    ensures UnquoteBody(s[..StringEnd(s, false).value - 1]) != Failure(SlashAtEnd)
    decreases |s|
  {
    var n := StringEnd(s, false).value;
    var body := s[..n - 1];
    if s[0] == '"' {
    } else if s[0] != '\\' {
      ScannedBodyEndsWell(s[1..]);
      assert body[1..] == s[1..][..n - 2];
    } else {
      assert StringEnd(s[1..], true).value == n - 1;
      assert s[1..][1..] == s[2..];
      assert n >= 3 && StringEnd(s[2..], false).value == n - 2;
      if s[1] == 'u' {
        if |body| >= 6 && CodePoint(body[2..6]).Some? {
          HexIsPlain(body[2..6]);
          assert s[2..] == body[2..6] + s[6..];
          StringEndSkipsPlain(body[2..6], s[6..]);
          ScannedBodyEndsWell(s[6..]);
          assert body[6..] == s[6..][..n - 7];
        }
      } else if Unescape(s[1]).Some? {
        ScannedBodyEndsWell(s[2..]);
        assert body[2..] == s[2..][..n - 3];
      }
    }
  }

  // ----- Printed strings scan as one token -----

  lemma EscapeScans(c: char, t: string)
    ensures StringEnd(Escape(c) + t, false) == Shift(|Escape(c)|, StringEnd(t, false))
  {
    var e := Escape(c);
    if e[0] == '\\' {
      assert (e + t)[1..][1..] == e[2..] + t;
      assert StringEnd(e + t, false) == Shift(2, StringEnd(e[2..] + t, false));
      if |e| > 2 {
        PadKeepsDigits(Numeral(c as int, 10));
        assert forall i | 0 <= i < |e| - 2 :: e[2..][i] == Pad4(Numeral(c as int, 10))[i];
      }
      StringEndSkipsPlain(e[2..], t);
    } else {
      StringEndSkipsPlain(e, t);
    }
  }

  lemma {:induction false} PadKeepsDigits(digits: string)
    requires AllDigitsIn(digits, 10)
    ensures AllDigitsIn(Pad4(digits), 10) && |Pad4(digits)| >= 4
    ensures |digits| >= 4 ==> Pad4(digits) == digits
    ensures forall i | 0 <= i < |Pad4(digits)| :: IsPlain(Pad4(digits)[i])
    decreases 4 - |digits|
  {
    if |digits| < 4 {
      PadKeepsDigits("0" + digits);
    } else {
      assert DigitValue('"').None? && DigitValue('\\').None? && DigitValue('\n').None?;
    }
  }

  lemma {:induction false} EscapeAllScans(s: string, t: string)
    ensures StringEnd(EscapeAll(s) + t, false) == Shift(|EscapeAll(s)|, StringEnd(t, false))
  {
    if s == "" {
      assert EscapeAll(s) + t == t;
    } else {
      assert EscapeAll(s) + t == Escape(s[0]) + (EscapeAll(s[1..]) + t);
      EscapeScans(s[0], EscapeAll(s[1..]) + t);
      EscapeAllScans(s[1..], t);
    }
  }

  /** Whatever the string, its quoted form is one token as long as no quote follows directly. */
  lemma QuotedIsOneToken(s: string, rest: string)
    requires rest == "" || rest[0] != '"'
    ensures TakeText(Quoted(s) + rest) == Success(Lexeme(StringValue, |Quoted(s)|))
  {
    var text, body := Quoted(s) + rest, EscapeAll(s);
    assert text[1..] == body + ("\"" + rest);
    EscapeAllScans(s, "\"" + rest);
    if s != "" {
      assert text[1] == Escape(s[0])[0] != '"';
    } else {
      assert text[1..] == "\"" + rest;
    }
  }

  // ----- Which strings survive -----

  /** The characters that are read back as they were. */
  predicate Survives(c: char) {
    IsPrintable(c) || c == '\n' || c as int < 10
  }

  lemma {:induction false} DecimalReadAsHex(s: string)
    requires AllDigitsIn(s, 10) && 0 < |s| <= 4
    ensures DigitsValue(s, 16).Some?
    ensures DigitsValue(s, 16).value <
            (if |s| == 1 then 10 else if |s| == 2 then 160 else if |s| == 3 then 2560 else 40960)
  {
    if |s| > 1 {
      DecimalReadAsHex(s[..|s| - 1]);
    }
  }

  lemma SmallCode(n: nat)
    requires n < 32
    ensures var code := Pad4(Numeral(n, 10));
            |code| == 4 && DigitsValue(code, 16) == Some(n / 10 * 16 + n % 10)
  {
    var digits := Numeral(n, 10);
    if n < 10 {
      assert digits == [DigitChar(n)];
      var d1 := "0" + digits;
      var d2 := "0" + d1;
      assert Pad4(digits) == Pad4(d1) == Pad4(d2) == "0" + d2 == ['0', '0', '0', DigitChar(n)];
      PaddedValue(Pad4(digits), 0, n);
    } else {
      assert digits == [DigitChar(n / 10), DigitChar(n % 10)];
      var d1 := "0" + digits;
      assert Pad4(digits) == Pad4(d1) == "0" + d1 == ['0', '0', DigitChar(n / 10), DigitChar(n % 10)];
      PaddedValue(Pad4(digits), n / 10, n % 10);
    }
  }

  /** What a control character or a character above U+FFFF is read back as. */
  lemma CodeReadBack(c: char)
    requires !IsPrintable(c) && c != '\n'
    ensures var code := Pad4(Numeral(c as int, 10));
            && |code| >= 4
            && CodePoint(code[..4]).Some?
            && (CodePoint(code[..4]) == Some(c) <==> c as int < 10)
            && (c as int < 10 ==> |code| == 4)
  {
    hide Numeral, Pad4, DigitsValue;
    var n := c as int;
    PadKeepsDigits(Numeral(n, 10));
    var code := Pad4(Numeral(n, 10));
    DecimalReadAsHex(code[..4]);
    NoSignInFront(code[..4]);
    if n < 32 {
      SmallCode(n);
      assert code[..4] == code;
    }
  }

  lemma NoSignInFront(s: string)
    requires AllDigitsIn(s, 10) && s != ""
    ensures !("+" <= s)
  {
    assert DigitValue('+').None? && DigitValue(s[0]).Some?;
  }

  lemma PaddedValue(code: string, tens: nat, ones: nat)
    requires tens < 10 && ones < 10
    requires code == ['0', '0', DigitChar(tens), DigitChar(ones)]
    ensures DigitsValue(code, 16) == Some(16 * tens + ones)
  {
    assert code[..3] == ['0', '0', DigitChar(tens)];
    assert code[..3][..2] == ['0', '0'];
    assert code[..3][..2][..1] == ['0'];
    assert DigitsValue(['0'], 16) == Some(0);
    assert DigitsValue(['0', '0'], 16) == Some(0);
    assert DigitsValue(code[..3], 16) == Some(tens);
  }

  lemma EscapeReadsBack(c: char, t: string)
    ensures Survives(c) ==> UnquoteBody(Escape(c) + t) == Prepend(c, UnquoteBody(t))
    ensures !Survives(c) && UnquoteBody(Escape(c) + t).Success? ==>
              UnquoteBody(Escape(c) + t).value != "" && UnquoteBody(Escape(c) + t).value[0] != c
  {
    var e := Escape(c);
    if IsPrintable(c) || c == '\n' {
      if e[0] == '\\' {
        assert (e + t)[2..] == t;
      } else {
        assert (e + t)[1..] == t;
      }
    } else {
      CodeReadBack(c);
      var code := Pad4(Numeral(c as int, 10));
      assert (e + t)[2..6] == code[..4];
      if c as int < 10 {
        assert (e + t)[6..] == t;
      }
    }
  }

  /**
   A string written between quotes is read back unchanged exactly when it has no control
   character from U+000B on (other than carriage return) and no character above U+FFFF:
   their codes are written in decimal and read in hexadecimal.
   */
  lemma {:induction false} QuotedRoundTrip(s: string)
    ensures UnquoteBody(EscapeAll(s)) == Success(s) <==> forall i | 0 <= i < |s| :: Survives(s[i])
  {
    if s != "" {
      EscapeReadsBack(s[0], EscapeAll(s[1..]));
      QuotedRoundTrip(s[1..]);
      if Survives(s[0]) {
        assert [s[0]] + s[1..] == s;
        assert forall t: string :: [s[0]] + t == s ==> t == s[1..] by {
          forall t: string | [s[0]] + t == s ensures t == s[1..] {
            assert ([s[0]] + t)[1..] == t;
          }
        }
        assert (forall i | 0 <= i < |s| :: Survives(s[i])) <==>
               (forall i | 0 <= i < |s[1..]| :: Survives(s[1..][i])) by {
          if forall i | 0 <= i < |s| :: Survives(s[i]) {
            assert forall i | 0 <= i < |s[1..]| :: s[1..][i] == s[i + 1];
          }
          if forall i | 0 <= i < |s[1..]| :: Survives(s[1..][i]) {
            assert forall i | 0 < i < |s| :: s[i] == s[1..][i - 1];
          }
        }
      }
    }
  }

  lemma EscapedVerticalTab()
    requires DigitsValue("0011", 16) == Some(17)
    ensures CodePoint("0011") == Some('\U{0011}')
  {
    assert "0011"[0] == '0';
    assert ParseUnsigned("0011", 16, 0xFFFF_FFFF) == Some(17);
    assert 17 as char == '\U{0011}';
  }

  /** The vertical tab comes back as the control character U+0011. */
  lemma VerticalTabIsCorrupted()
    ensures UnquoteBody(EscapeAll("\U{000B}")) == Success("\U{0011}")
  {
    var e := Escape('\U{000B}');
    assert Numeral(1, 10) == ['1'];
    assert Numeral(11, 10) == ['1', '1'];
    assert Pad4("11") == Pad4("0" + ("0" + "11")) == "0011";
    assert EscapeAll("\U{000B}") == e == "\\u0011";
    assert e[2..6] == "0011" == ['0', '0', DigitChar(1), DigitChar(1)];
    PaddedValue("0011", 1, 1);
    EscapedVerticalTab();
    assert e[6..] == "";
    assert ['\U{0011}'] + "" == "\U{0011}";
  }

  /** The escape for a backspace is read as U+0010, where the standard means U+0008. */
  lemma BackspaceIsMisread(rest: string)
    requires UnquoteBody(rest).Success?
    ensures UnquoteBody("\\b" + rest) == Success(['\U{0010}'] + UnquoteBody(rest).value)
  {
    var s := "\\b" + rest;
    assert s[0] == '\\' && s[1] == 'b' && s[2..] == rest;
  }
}
