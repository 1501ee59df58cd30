/** The tokenizer of crates/parser/src/tokenizer.rs as functions of the text, counted in characters. */
module Lexer {
  import opened Wrappers

  datatype Kind = Punctuator | Name | IntValue | FloatValue | StringValue | BlockString

  datatype Token = Token(kind: Kind, value: string)

  datatype LexError =
    | EndOfInput
    | RecursionLimitExceeded
    | BareDot
    | UnsupportedInteger
    | UnsupportedFloat
    | UnterminatedString
    | UnterminatedBlockString
    | UnexpectedCharacter

  /** A token found at the front of the text. */
  datatype Lexeme = Lexeme(kind: Kind, len: nat)

  /** One-based line and column. */
  datatype Pos = Pos(line: nat, column: nat)

  const USIZE_MAX: nat := 0xFFFF_FFFF_FFFF_FFFF
  const QUOTES: string := "\"\"\""

  // ----- Character classes -----

  predicate IsOpen(c: char) { c == '(' || c == '[' || c == '{' }

  predicate IsClose(c: char) { c == ')' || c == ']' || c == '}' }

  predicate IsSymbol(c: char) {
    c == '!' || c == '$' || c == ':' || c == '=' || c == '@' || c == '|' || c == '&'
  }

  predicate IsDigit(c: char) { '0' <= c <= '9' }

  predicate IsNameStart(c: char) { c == '_' || 'a' <= c <= 'z' || 'A' <= c <= 'Z' }

  predicate IsNameChar(c: char) { IsNameStart(c) || IsDigit(c) }

  /** The characters that end a number. */
  predicate IsDelimiter(c: char) {
    c == ' ' || c == '\n' || c == '\r' || c == '\t' || c == ',' || c == '#'
    || IsSymbol(c) || IsOpen(c) || IsClose(c)
  }

  /** The ignored characters outside comments. */
  predicate IsIgnorable(c: char) {
    c == '\U{FEFF}' || c == '\r' || c == '\t' || c == '\n' || c == ' ' || c == ','
  }

  predicate IsLineEnd(c: char) { c == '\r' || c == '\n' }

  // ----- Ignored text -----

  /** Length of the ignored text at the front of `s`, starting inside a comment or not. */
  function IgnoredLen(s: string, inComment: bool): (n: nat)
    ensures n <= |s|
  {
    if s == "" then 0
    else if inComment then 1 + IgnoredLen(s[1..], !IsLineEnd(s[0]))
    else if s[0] == '#' then 1 + IgnoredLen(s[1..], true)
    else if IsIgnorable(s[0]) then 1 + IgnoredLen(s[1..], false)
    else 0
  }

  /** The position after the ignored text at the front of `s`. */
  function IgnoredPos(s: string, inComment: bool, pos: Pos): Pos {
    if s == "" then pos
    else if inComment then
      if IsLineEnd(s[0]) then IgnoredPos(s[1..], false, Pos(pos.line + 1, 1))
      else IgnoredPos(s[1..], true, pos)
    else if s[0] == '#' then IgnoredPos(s[1..], true, pos)
    else if IsIgnorable(s[0]) then IgnoredPos(s[1..], false, PosAfterIgnorable(s[0], pos))
    else pos
  }

  /** One ignored character. */
  lemma IgnoredStep(s: string, inComment: bool, pos: Pos)
    requires s != "" && (inComment || s[0] == '#' || IsIgnorable(s[0]))
    ensures var next := if inComment then !IsLineEnd(s[0]) else s[0] == '#';
            && IgnoredLen(s, inComment) == 1 + IgnoredLen(s[1..], next)
            && IgnoredPos(s, inComment, pos) == IgnoredPos(s[1..], next,
                 if inComment then if IsLineEnd(s[0]) then Pos(pos.line + 1, 1) else pos
                 else if s[0] == '#' then pos
                 else PosAfterIgnorable(s[0], pos))
  {
  }

  /** The end of ignored text, or of the text in a comment. */
  lemma IgnoredEnd(s: string, inComment: bool, pos: Pos)
    requires s == "" || (!inComment && s[0] != '#' && !IsIgnorable(s[0]))
    ensures IgnoredLen(s, inComment) == 0 && IgnoredPos(s, inComment, pos) == pos
  {
  }

  function PosAfterIgnorable(c: char, pos: Pos): Pos {
    if c == '\t' then Pos(pos.line, pos.column + 8)
    else if c == '\n' then Pos(pos.line + 1, 1)
    else if c == ' ' || c == ',' then Pos(pos.line, pos.column + 1)
    else pos
  }

  // ----- Tokens -----

  function NameRun(s: string): (n: nat)
    ensures n <= |s|
  {
    if s == "" || !IsNameChar(s[0]) then 0 else 1 + NameRun(s[1..])
  }

  function NumberRun(s: string): (n: nat)
    ensures n <= |s|
  {
    if s == "" || IsDelimiter(s[0]) then 0 else 1 + NumberRun(s[1..])
  }

  predicate AllDigits(s: string) {
    forall i | 0 <= i < |s| :: IsDigit(s[i])
  }

  predicate CheckInt(value: string)
    requires value != ""
  {
    || value == "0"
    || value == "-0"
    || (&& !("0" <= value)
        && value != "-"
        && !("-0" <= value)
        && AllDigits(value[1..]))
  }

  predicate CheckDec(value: string) {
    value != "" && AllDigits(value)
  }

  predicate CheckExp(value: string) {
    && value != ""
    && (value[0] == '-' || value[0] == '+' || '0' < value[0] < '9')
    && AllDigits(value[1..])
  }

  /** Index of the last element of `s` that is in `cs`, if any. */
  function LastOf(s: string, cs: set<char>): (r: Option<nat>)
    ensures r.Some? ==> r.value < |s| && s[r.value] in cs
    ensures forall i | 0 <= i < |s| && s[i] in cs :: r.Some? && i <= r.value
  {
    if s == "" then None
    else if s[|s| - 1] in cs then Some(|s| - 1)
    else LastOf(s[..|s| - 1], cs)
  }

  predicate CheckFloat(value: string, exponent: Option<nat>, point: Option<nat>)
    requires exponent.Some? ==> 0 < exponent.value < |value|
    requires point.Some? ==> 0 < point.value < |value|
    requires exponent.Some? || point.Some?
    requires exponent.Some? && point.Some? ==> exponent.value != point.value
  {
    if exponent.Some? && point.Some? then
      && point.value < exponent.value
      && CheckInt(value[..point.value])
      && CheckDec(value[point.value + 1..exponent.value])
      && CheckExp(value[exponent.value + 1..])
    else if exponent.Some? then
      CheckInt(value[..exponent.value]) && CheckExp(value[exponent.value + 1..])
    else
      CheckInt(value[..point.value]) && CheckDec(value[point.value + 1..])
  }

  /** The kind of a whole number text, if it is one the tokenizer accepts. */
  function NumberKind(text: string): (r: Result<Kind, LexError>)
    requires text != ""
    requires text[0] == '-' || IsDigit(text[0])
    ensures r.Success? ==> r.value == IntValue || r.value == FloatValue
    ensures r.Failure? ==> r.error != RecursionLimitExceeded
  {
    var exponent, point := LastOf(text, {'e', 'E'}), LastOf(text, {'.'});
    if exponent.Some? || point.Some? then
      if CheckFloat(text, exponent, point) then Success(FloatValue) else Failure(UnsupportedFloat)
    else
      if CheckInt(text) then Success(IntValue) else Failure(UnsupportedInteger)
  }

  function Shift(n: nat, r: Option<nat>): Option<nat> {
    match r
    case None => None
    case Some(m) => Some(n + m)
  }

  /** Distance just past the quote that closes a string whose opening quote precedes `s`. */
  function StringEnd(s: string, escaped: bool): (r: Option<nat>)
    ensures r.Some? ==> 0 < r.value <= |s|
  {
    if s == "" || s[0] == '\n' then None
    else if s[0] == '"' && !escaped then Some(1)
    else Shift(1, StringEnd(s[1..], !escaped && s[0] == '\\'))
  }

  /** Distance to the first triple quote in `s` not preceded by a backslash; matches do not overlap. */
  function BlockEnd(s: string, escaped: bool): (r: Option<nat>)
    ensures r.Some? ==> r.value + 3 <= |s|
  {
    if |s| < 3 then None
    else if QUOTES <= s then if escaped then Shift(3, BlockEnd(s[3..], false)) else Some(0)
    else Shift(1, BlockEnd(s[1..], s[0] == '\\'))
  }

  function SaturatingIncrement(n: nat): nat {
    if n < USIZE_MAX then n + 1 else n
  }

  /** Kind and length of the token at the very front of `s`, whatever the nesting. */
  function TakeText(s: string): (r: Result<Lexeme, LexError>)
    ensures r.Success? ==> 0 < r.value.len <= |s|
    ensures r.Failure? ==> r.error != RecursionLimitExceeded
  {
    if s == "" then Failure(EndOfInput)
    else if IsOpen(s[0]) || IsClose(s[0]) || IsSymbol(s[0]) then Success(Lexeme(Punctuator, 1))
    else if s[0] == '.' then
      if "..." <= s then Success(Lexeme(Punctuator, 3)) else Failure(BareDot)
    else if IsNameStart(s[0]) then Success(Lexeme(Name, 1 + NameRun(s[1..])))
    else if s[0] == '-' || IsDigit(s[0]) then NumberText(s)
    else if s[0] == '"' then if QUOTES <= s then BlockStringText(s) else StringText(s)
    else Failure(UnexpectedCharacter)
  }

  function NumberText(s: string): (r: Result<Lexeme, LexError>)
    requires s != "" && (s[0] == '-' || IsDigit(s[0]))
    ensures r.Success? ==> 0 < r.value.len <= |s|
    ensures r.Success? ==> r.value.kind == IntValue || r.value.kind == FloatValue
    ensures r.Failure? ==> r.error != RecursionLimitExceeded
  {
    var len := 1 + NumberRun(s[1..]);
    var kind :- NumberKind(s[..len]);
    Success(Lexeme(kind, len))
  }

  function StringText(s: string): (r: Result<Lexeme, LexError>)
    requires s != ""
    ensures r.Success? ==> 0 < r.value.len <= |s| && r.value.kind == StringValue
    ensures r.Failure? ==> r.error != RecursionLimitExceeded
  {
    match StringEnd(s[1..], false)
    case None => Failure(UnterminatedString)
    case Some(n) => Success(Lexeme(StringValue, n + 1))
  }

  function BlockStringText(s: string): (r: Result<Lexeme, LexError>)
    requires |s| >= 3
    ensures r.Success? ==> 0 < r.value.len <= |s| && r.value.kind == BlockString
    ensures r.Failure? ==> r.error != RecursionLimitExceeded
  {
    match BlockEnd(s[3..], false)
    case None => Failure(UnterminatedBlockString)
    case Some(n) => Success(Lexeme(BlockString, n + 6))
  }

  /** The nesting budget once a token starting with `c` has been read; none if the token may not be read. */
  function Spend(budget: nat, c: char): Option<nat> {
    if IsOpen(c) then if budget == 0 then None else Some(budget - 1)
    else if IsClose(c) then Some(SaturatingIncrement(budget))
    else Some(budget)
  }

  /** The token at the very front of `s`, within a nesting budget. */
  function Take(s: string, budget: nat): (r: Result<(Lexeme, nat), LexError>)
    ensures r.Success? ==> 0 < r.value.0.len <= |s|
  {
    if s == "" then Failure(EndOfInput)
    else
      match Spend(budget, s[0])
      case None => Failure(RecursionLimitExceeded)
      case Some(after) =>
        var l :- TakeText(s);
        Success((l, after))
  }

  /** The position after a token with text `text`: only block strings can span lines. */
  function PosAfterToken(kind: Kind, text: string, pos: Pos): Pos {
    if kind == BlockString then PosAfterText(text, pos) else Pos(pos.line, pos.column + |text|)
  }

  function PosAfterText(text: string, pos: Pos): Pos {
    if text == "" then pos
    else if text[0] == '\n' then PosAfterText(text[1..], Pos(pos.line + 1, 1))
    else PosAfterText(text[1..], Pos(pos.line, pos.column + 1))
  }

  // ----- One straight pass over the whole text -----

  /** The tokens of a text in order, closed by the error that ends the pass (EndOfInput when all is read). */
  datatype Input = End(error: LexError) | More(tok: Token, rest: Input)

  function Scan(s: string, budget: nat): Input
    decreases |s|
  {
    var t := s[IgnoredLen(s, false)..];
    match Take(t, budget)
    case Failure(e) => End(e)
    case Success((l, after)) => More(Token(l.kind, t[..l.len]), Scan(t[l.len..], after))
  }

  function Ending(i: Input): LexError {
    match i
    case End(e) => e
    case More(_, r) => Ending(r)
  }

  // ----- The tokens are slices of the text, in order, separated by ignored text -----

  /** Ignored text in full: line ends, blanks, commas, byte order marks and comments. */
  predicate Ignored(s: string, inComment: bool) {
    s == ""
    || (if inComment then Ignored(s[1..], !IsLineEnd(s[0]))
        else if s[0] == '#' then Ignored(s[1..], true)
        else IsIgnorable(s[0]) && Ignored(s[1..], false))
  }

  /** `s` is gap, token, gap, token, ..., where the tokens are those of `i` and the gaps are ignored text. */
  ghost predicate SplitsInto(s: string, i: Input)
    decreases i
  {
    if i.End? then Ignored(s, false)
    else exists n: nat | n <= |s| :: Ignored(s[..n], false) && TokenThen(s[n..], i)
  }

  ghost predicate TokenThen(s: string, i: Input)
    requires i.More?
    decreases i, 0
  {
    i.tok.value != "" && i.tok.value <= s && SplitsInto(s[|i.tok.value|..], i.rest)
  }

  lemma {:induction false} IgnoredLenIsIgnored(s: string, inComment: bool)
    ensures Ignored(s[..IgnoredLen(s, inComment)], inComment)
  {
    if s != "" && IgnoredLen(s, inComment) > 0 {
      var next := if inComment then !IsLineEnd(s[0]) else s[0] == '#';
      IgnoredLenIsIgnored(s[1..], next);
      assert s[..IgnoredLen(s, inComment)][1..] == s[1..][..IgnoredLen(s[1..], next)];
    }
  }

  lemma NothingAtEnd(s: string)
    requires TakeText(s) == Failure(EndOfInput)
    ensures s == ""
  {
  }

  lemma {:induction false} ScanSplitsTheText(s: string, budget: nat)
    requires Ending(Scan(s, budget)) == EndOfInput
    ensures SplitsInto(s, Scan(s, budget))
    decreases |s|
  {
    hide TakeText, IgnoredLen, Ignored, Scan;
    var n := IgnoredLen(s, false);
    IgnoredLenIsIgnored(s, false);
    ScanStep(s, budget);
    var t := s[n..];
    match TakeText(t)
    case Failure(e) =>
      NothingAtEnd(t);
      assert s[..n] == s;
    case Success(l) =>
      ScanSplitsTheText(t[l.len..], Spend(budget, t[0]).value);
      assert s[n + l.len..] == t[l.len..];
  }

  // ----- Integer tokens are exactly the IntValue texts of section 2.9.1 -----

  /** NegativeSign? 0, or NegativeSign? NonZeroDigit Digit* */
  predicate IsIntValueText(s: string) {
    var digits := if "-" <= s then s[1..] else s;
    && digits != ""
    && AllDigits(digits)
    && (digits[0] == '0' ==> |digits| == 1)
  }

  lemma CheckIntIsIntValue(s: string)
    requires s != "" && (s[0] == '-' || IsDigit(s[0]))
    ensures CheckInt(s) <==> IsIntValueText(s)
  {
    if s[0] == '-' {
      var digits := s[1..];
      if digits != "" && digits[0] == '0' {
        assert "-0" <= s;
        if |digits| == 1 { assert s == "-0"; }
      }
    } else if s[0] == '0' {
      if |s| == 1 { assert s == "0"; }
    } else {
      assert AllDigits(s) <==> AllDigits(s[1..]);
    }
  }

  /** A whole number text is an integer token or a float token, never both. */
  lemma NumberIsInt(text: string)
    requires text != "" && (text[0] == '-' || IsDigit(text[0]))
    ensures NumberKind(text) == Success(IntValue) <==> IsIntValueText(text)
  {
    CheckIntIsIntValue(text);
    if IsIntValueText(text) {
      assert forall i | 0 <= i < |text| :: text[i] == '-' || IsDigit(text[i]) by {
        assert "-" <= text ==> forall i | 0 < i < |text| :: text[1..][i - 1] == text[i];
      }
    }
  }

  /** The token at the front of a text is an integer exactly if its own text is an IntValue. */
  lemma TokenIsInt(s: string)
    requires TakeText(s).Success?
    ensures TakeText(s).value.kind == IntValue <==> IsIntValueText(s[..TakeText(s).value.len])
  {
    var text := s[..TakeText(s).value.len];
    if s[0] == '-' || IsDigit(s[0]) {
      NumberIsInt(s[..1 + NumberRun(s[1..])]);
    } else {
      assert text[0] == s[0];
    }
  }

  predicate IntsAreIntValues(i: Input) {
    match i
    case End(_) => true
    case More(t, r) => (t.kind == IntValue <==> IsIntValueText(t.value)) && IntsAreIntValues(r)
  }

  /** The integer tokens of any text are exactly its tokens that are IntValues. */
  lemma {:induction false} IntTokensAreIntValues(s: string, budget: nat)
    ensures IntsAreIntValues(Scan(s, budget))
    decreases |s|
  {
    hide TakeText, IgnoredLen, Scan, IsIntValueText;
    ScanStep(s, budget);
    var t := s[IgnoredLen(s, false)..];
    if TakeText(t).Success? && Spend(budget, t[0]).Some? {
      TokenIsInt(t);
      IntTokensAreIntValues(t[TakeText(t).value.len..], Spend(budget, t[0]).value);
    }
  }

  // ----- Float tokens that are no floats -----

  function Unsigned(s: string): string {
    if s != "" && (s[0] == '-' || s[0] == '+') then s[1..] else s
  }

  /** Digits with at most one point, and at least one digit. */
  predicate IsMantissa(s: string) {
    && (exists i | 0 <= i < |s| :: IsDigit(s[i]))
    && (forall i | 0 <= i < |s| :: IsDigit(s[i]) || s[i] == '.')
    && (forall i, j | 0 <= i < j < |s| :: s[i] != '.' || s[j] != '.')
  }

  /** The texts of digits that the standard library reads as an `f64`. */
  predicate IsFloatText(s: string) {
    var e := LastOf(s, {'e', 'E'});
    && IsMantissa(Unsigned(if e.Some? then s[..e.value] else s))
    && (e.Some? ==> var digits := Unsigned(s[e.value + 1..]); digits != "" && AllDigits(digits))
  }

  lemma IntIsMantissa(s: string)
    requires s != "" && (s[0] == '-' || IsDigit(s[0])) && CheckInt(s)
    ensures IsMantissa(Unsigned(s)) && AllDigits(Unsigned(s))
  {
    CheckIntIsIntValue(s);
    assert IsDigit(Unsigned(s)[0]);
  }

  lemma DecimalIsMantissa(s: string, point: nat)
    requires 0 < point < |s| && s[point] == '.' && (s[0] == '-' || IsDigit(s[0]))
    requires CheckInt(s[..point]) && CheckDec(s[point + 1..])
    ensures IsMantissa(Unsigned(s))
  {
    IntIsMantissa(s[..point]);
    var whole, fraction, all := Unsigned(s[..point]), s[point + 1..], Unsigned(s);
    assert all == whole + ['.'] + fraction;
    assert IsDigit(all[0]);
  }

  lemma MantissaIsRead(text: string)
    requires text != "" && (text[0] == '-' || IsDigit(text[0])) && NumberKind(text) == Success(FloatValue)
    ensures var e := LastOf(text, {'e', 'E'}); IsMantissa(Unsigned(if e.Some? then text[..e.value] else text))
  {
    var exponent, point := LastOf(text, {'e', 'E'}), LastOf(text, {'.'});
    var mantissa := if exponent.Some? then text[..exponent.value] else text;
    hide LastOf, IsMantissa, CheckInt, CheckExp;
    if point.Some? {
      assert mantissa[..point.value] == text[..point.value] && mantissa[point.value] == text[point.value];
      assert mantissa[point.value + 1..] ==
             if exponent.Some? then text[point.value + 1..exponent.value] else text[point.value + 1..];
      DecimalIsMantissa(mantissa, point.value);
    } else {
      IntIsMantissa(mantissa);
    }
  }

  /** The tokenizer lets through one kind of text that is no float: an exponent of a sign only. */
  lemma UnreadableFloats(text: string)
    requires text != "" && (text[0] == '-' || IsDigit(text[0])) && NumberKind(text) == Success(FloatValue)
    ensures IsFloatText(text) <==> text[|text| - 1] != '-' && text[|text| - 1] != '+'
  {
    var exponent, point := LastOf(text, {'e', 'E'}), LastOf(text, {'.'});
    MantissaIsRead(text);
    hide IsMantissa, CheckInt, LastOf;
    if exponent.Some? {
      ExponentDigits(text[exponent.value + 1..]);
    } else {
      var fraction := text[point.value + 1..];
      assert fraction[|fraction| - 1] == text[|text| - 1];
    }
  }

  lemma ExponentDigits(exponent: string)
    requires CheckExp(exponent)
    ensures Unsigned(exponent) != "" && AllDigits(Unsigned(exponent)) <==>
            exponent[|exponent| - 1] != '-' && exponent[|exponent| - 1] != '+'
  {
    if |exponent| > 1 {
      assert IsDigit(exponent[1..][|exponent| - 2]);
    }
  }

  /** As in `1e+`. */
  lemma ExponentOfSignOnly()
    ensures NumberKind("1e+") == Success(FloatValue) && !IsFloatText("1e+")
  {
    var text := "1e+";
    assert text[..1] == "1" && text[2..] == "+";
    assert LastOf(text, {'e', 'E'}) == Some(1) && LastOf(text, {'.'}) == None;
    UnreadableFloats(text);
  }

  // ----- Where positions surprise -----

  lemma PastLineEnd(s: string, inComment: bool, pos: Pos)
    requires s != "" && IsLineEnd(s[0])
    ensures IgnoredPos(s, inComment, pos) ==
            IgnoredPos(s[1..], false, if inComment || s[0] == '\n' then Pos(pos.line + 1, 1) else pos)
  {
  }

  /** A carriage return ends a comment and counts as a line; the line feed after it is one more. */
  lemma CarriageReturnCountsInComments(rest: string, pos: Pos)
    ensures IgnoredPos("\r\n" + rest, true, pos) == IgnoredPos(rest, false, Pos(pos.line + 2, 1))
    ensures IgnoredPos("\r\n" + rest, false, pos) == IgnoredPos(rest, false, Pos(pos.line + 1, 1))
  {
    hide IgnoredPos;
    var s := "\r\n" + rest;
    assert s[1..][1..] == rest;
    PastLineEnd(s, true, pos);
    PastLineEnd(s, false, pos);
    PastLineEnd(s[1..], false, Pos(pos.line + 1, 1));
    PastLineEnd(s[1..], false, pos);
  }

  // ----- The nesting budget -----

  function NetOpen(t: Token): int {
    if t.value == "" then 0
    else if IsOpen(t.value[0]) then 1
    else if IsClose(t.value[0]) then -1
    else 0
  }

  /** Whether the brackets of `i` stay within a nesting budget. */
  predicate Fits(i: Input, budget: int) {
    match i
    case End(_) => true
    case More(t, r) => NetOpen(t) <= budget && Fits(r, budget - NetOpen(t))
  }

  /** One token of a scan, told apart by the text and by the budget. */
  lemma ScanStep(s: string, budget: nat)
    ensures var t := s[IgnoredLen(s, false)..];
            match TakeText(t)
            case Failure(e) => Scan(s, budget) == End(e)
            case Success(l) =>
              match Spend(budget, t[0])
              case None => Scan(s, budget) == End(RecursionLimitExceeded)
              case Some(after) => Scan(s, budget) == More(Token(l.kind, t[..l.len]), Scan(t[l.len..], after))
  {
  }

  /**
   The budget error is raised exactly when some prefix of the text nests deeper than the
   budget, and otherwise the budget has no influence on the tokens.
   */
  lemma {:induction false} BudgetErrorIffTooDeep(s: string, budget: nat, unlimited: nat)
    requires unlimited > |s| && unlimited + |s| < USIZE_MAX && budget + |s| < USIZE_MAX
    ensures Ending(Scan(s, unlimited)) != RecursionLimitExceeded
    ensures Fits(Scan(s, unlimited), budget) ==> Scan(s, budget) == Scan(s, unlimited)
    ensures !Fits(Scan(s, unlimited), budget) ==> Ending(Scan(s, budget)) == RecursionLimitExceeded
    decreases |s|
  {
    hide TakeText, IgnoredLen, Scan;
    ScanStep(s, budget);
    ScanStep(s, unlimited);
    var t := s[IgnoredLen(s, false)..];
    if TakeText(t).Success? {
      var l := TakeText(t).value;
      var rest := t[l.len..];
      assert Token(l.kind, t[..l.len]).value[0] == t[0];
      var after := Spend(unlimited, t[0]).value;
      if Spend(budget, t[0]).Some? {
        BudgetErrorIffTooDeep(rest, Spend(budget, t[0]).value, after);
      } else {
        BudgetErrorIffTooDeep(rest, 0, after);
      }
    }
  }
}
