/** The texts of tokens by their characters alone, and the tokenizer as what finds exactly these texts. */
module TokenTexts {
  import opened Wrappers
  import opened Lexer
  import opened Numerals
  import opened IgnoredText
  import TokenStreams

  // ----- Texts of tokens -----

  predicate IsPunctuatorText(v: string) {
    || v == "!" || v == "$" || v == "(" || v == ")" || v == "..." || v == ":" || v == "=" || v == "@"
    || v == "[" || v == "]" || v == "{" || v == "|" || v == "}" || v == "&"
  }

  predicate InName(c: char) {
    c == '_' || 'a' <= c <= 'z' || 'A' <= c <= 'Z' || '0' <= c <= '9'
  }

  predicate IsNameText(v: string) {
    v != "" && !('0' <= v[0] <= '9') && forall i | 0 <= i < |v| :: InName(v[i])
  }

  predicate AreDigits(v: string) {
    forall i | 0 <= i < |v| :: '0' <= v[i] <= '9'
  }

  predicate IsIntText(v: string) {
    var digits := if v != "" && v[0] == '-' then v[1..] else v;
    digits == "0" || (digits != "" && digits[0] != '0' && AreDigits(digits))
  }

  predicate IsFractionText(v: string) {
    |v| > 1 && v[0] == '.' && AreDigits(v[1..])
  }

  /** The first digit after `e` must be one from 1 to 8 unless a sign precedes it; after a sign none is needed. */
  predicate IsExponentText(v: string) {
    && |v| > 1
    && (v[0] == 'e' || v[0] == 'E')
    && (v[1] == '+' || v[1] == '-' || '1' <= v[1] <= '8')
    && AreDigits(v[2..])
  }

  ghost predicate IsFloatTokenText(v: string) {
    exists i, j | 0 < i <= j <= |v| :: IsFloatSplit(v, i, j)
  }

  /** An integer up to `i`, a fraction up to `j` and an exponent, where one of the latter may be missing. */
  predicate IsFloatSplit(v: string, i: nat, j: nat)
    requires i <= j <= |v|
  {
    && i < |v|
    && IsIntText(v[..i])
    && (i == j || IsFractionText(v[i..j]))
    && (j == |v| || IsExponentText(v[j..]))
  }

  /** What may stand between single quotes: a backslash takes the next character with it. */
  predicate IsStringBody(b: string) {
    || b == ""
    || (b[0] != '"' && b[0] != '\\' && b[0] != '\n' && IsStringBody(b[1..]))
    || (b[0] == '\\' && |b| > 1 && b[1] != '\n' && IsStringBody(b[2..]))
  }

  predicate TripleAt(s: string, n: nat) {
    n + 3 <= |s| && s[n] == '"' && s[n + 1] == '"' && s[n + 2] == '"'
  }

  predicate SlashAt(s: string, n: int) {
    0 <= n < |s| && s[n] == '\\'
  }

  /** Three quotes at `n` that no backslash escapes and that share none with three escaped ones. */
  predicate ClosesAt(s: string, n: nat) {
    && TripleAt(s, n)
    && !SlashAt(s, n - 1)
    && !(SlashAt(s, n - 2) && s[n - 1] == '"')
    && !(SlashAt(s, n - 3) && s[n - 2] == '"' && s[n - 1] == '"')
  }

  predicate IsBlockEnd(s: string, n: nat) {
    ClosesAt(s, n) && forall m: nat | m < n :: !ClosesAt(s, m)
  }

  ghost predicate IsTokenText(kind: Kind, v: string) {
    match kind
    case Punctuator => IsPunctuatorText(v)
    case Name => IsNameText(v)
    case IntValue => IsIntText(v)
    case FloatValue => IsFloatTokenText(v)
    case StringValue => |v| >= 2 && v[0] == '"' && v[|v| - 1] == '"' && IsStringBody(v[1..|v| - 1])
    case BlockString => |v| >= 6 && TripleAt(v, 0) && IsBlockEnd(v[3..], |v| - 6)
  }

  /** The characters that may follow a number. */
  predicate EndsNumber(c: char) {
    || c == ' ' || c == '\n' || c == '\r' || c == '\t' || c == ',' || c == '#'
    || c == '!' || c == '$' || c == ':' || c == '=' || c == '@' || c == '|' || c == '&'
    || c == '(' || c == ')' || c == '[' || c == ']' || c == '{' || c == '}'
  }

  /** What may stand behind a token: no more of a name, nothing glued to a number, no third quote. */
  predicate MayFollow(kind: Kind, v: string, rest: string) {
    rest != "" ==>
      match kind
      case Name => !InName(rest[0])
      case IntValue | FloatValue => EndsNumber(rest[0])
      case StringValue => v == "\"\"" ==> rest[0] != '"'
      case _ => true
  }

  // ----- Names and numbers -----

  lemma {:induction false} NameRunIs(s: string, n: nat)
    requires n <= |s|
    ensures NameRun(s) == n <==> (forall i | 0 <= i < n :: InName(s[i])) && (n < |s| ==> !InName(s[n]))
  {
    if s != "" && n > 0 {
      NameRunIs(s[1..], n - 1);
      assert (forall i | 0 <= i < n :: InName(s[i])) <==>
             InName(s[0]) && forall i | 0 <= i < n - 1 :: InName(s[1..][i]);
    }
  }

  lemma {:induction false} NumberRunIs(s: string, n: nat)
    requires n <= |s|
    ensures NumberRun(s) == n <==> (forall i | 0 <= i < n :: !EndsNumber(s[i])) && (n < |s| ==> EndsNumber(s[n]))
  {
    if s != "" && n > 0 {
      NumberRunIs(s[1..], n - 1);
      assert (forall i | 0 <= i < n :: !EndsNumber(s[i])) <==>
             !EndsNumber(s[0]) && forall i | 0 <= i < n - 1 :: !EndsNumber(s[1..][i]);
    }
  }

  predicate StartsNumber(s: string) {
    s != "" && (s[0] == '-' || '0' <= s[0] <= '9')
  }

  lemma CheckIntIs(v: string)
    requires v != "" && (v[0] == '-' || IsDigit(v[0]))
    ensures CheckInt(v) <==> IsIntText(v)
  {
    CheckIntIsIntValue(v);
  }

  lemma IntIsInt(v: string)
    requires StartsNumber(v)
    ensures NumberKind(v) == Success(IntValue) <==> IsIntText(v)
  {
    NumberIsInt(v);
    CheckIntIs(v);
    CheckIntIsIntValue(v);
  }

  lemma IntHasOnlyDigits(v: string)
    requires IsIntText(v)
    ensures v != "" && (v[0] == '-' || '0' <= v[0] <= '9')
    ensures forall i | 0 < i < |v| :: '0' <= v[i] <= '9'
  {
    if v[0] == '-' {
      assert forall i | 0 < i < |v| :: v[i] == v[1..][i - 1];
    }
  }

  /** No letter and no point in an integer. */
  lemma IntHasNeither(v: string, k: nat)
    requires IsIntText(v) && k < |v|
    ensures v[k] != '.' && v[k] != 'e' && v[k] != 'E'
  {
    IntHasOnlyDigits(v);
  }

  lemma FractionHasOnePoint(v: string, k: nat)
    requires IsFractionText(v) && k < |v|
    ensures v[k] != 'e' && v[k] != 'E' && (v[k] == '.' <==> k == 0)
  {
    assert k > 0 ==> v[k] == v[1..][k - 1];
  }

  lemma ExponentHasOneLetter(v: string, k: nat)
    requires IsExponentText(v) && k < |v|
    ensures v[k] != '.' && (v[k] == 'e' || v[k] == 'E' <==> k == 0)
  {
    assert k > 1 ==> v[k] == v[2..][k - 2];
  }

  lemma PointsAndLetters(v: string, i: nat, j: nat, k: nat)
    requires 0 < i <= j <= |v| && IsFloatSplit(v, i, j) && k < |v|
    ensures v[k] == '.' <==> i < j && k == i
    ensures v[k] == 'e' || v[k] == 'E' <==> k == j
  {
    hide IsIntText, IsFractionText, IsExponentText;
    if k < i {
      IntHasNeither(v[..i], k);
    } else if k < j {
      FractionHasOnePoint(v[i..j], k - i);
    } else {
      ExponentHasOneLetter(v[j..], k - j);
    }
  }

  lemma FloatHasPointAndExponent(v: string, i: nat, j: nat)
    requires 0 < i <= j <= |v| && IsFloatSplit(v, i, j)
    ensures LastOf(v, {'e', 'E'}) == if j < |v| then Some(j) else None
    ensures LastOf(v, {'.'}) == if i < j then Some(i) else None
  {
    hide IsFloatSplit;
    forall k | 0 <= k < |v|
      ensures v[k] == '.' <==> i < j && k == i
      ensures v[k] == 'e' || v[k] == 'E' <==> k == j
    {
      PointsAndLetters(v, i, j, k);
    }
    assert j < |v| ==> v[j] in {'e', 'E'};
    assert i < j ==> v[i] in {'.'};
  }

  lemma FractionIs(v: string, i: nat, j: nat)
    requires i < j <= |v|
    ensures IsFractionText(v[i..j]) <==> v[i] == '.' && CheckDec(v[i + 1..j])
  {
    assert v[i..j][1..] == v[i + 1..j];
  }

  lemma ExponentIs(v: string, j: nat)
    requires j < |v|
    ensures IsExponentText(v[j..]) <==> (v[j] == 'e' || v[j] == 'E') && CheckExp(v[j + 1..])
  {
    if j + 1 < |v| {
      assert v[j..][2..] == v[j + 1..][1..];
    }
  }

  lemma SplitIsFloat(v: string, i: nat, j: nat)
    requires 0 < i <= j <= |v| && IsFloatSplit(v, i, j) && StartsNumber(v)
    ensures NumberKind(v) == Success(FloatValue)
  {
    FloatHasPointAndExponent(v, i, j);
    CheckIntIs(v[..i]);
    if i < j {
      FractionIs(v, i, j);
      assert j == |v| ==> v[i + 1..j] == v[i + 1..];
    }
    if j < |v| {
      ExponentIs(v, j);
    }
    hide LastOf, IsIntText, IsFractionText, IsExponentText, CheckInt, CheckDec, CheckExp;
  }

  lemma FloatIsSplit(v: string) returns (i: nat, j: nat)
    requires StartsNumber(v) && NumberKind(v) == Success(FloatValue)
    ensures 0 < i <= j <= |v| && IsFloatSplit(v, i, j)
  {
    var exponent, point := LastOf(v, {'e', 'E'}), LastOf(v, {'.'});
    j := if exponent.Some? then exponent.value else |v|;
    i := if point.Some? then point.value else j;
    CheckIntIs(v[..i]);
    if i < j {
      FractionIs(v, i, j);
      assert j == |v| ==> v[i + 1..j] == v[i + 1..];
    }
    if j < |v| {
      ExponentIs(v, j);
    }
    hide LastOf, IsIntText, IsFractionText, IsExponentText, CheckInt, CheckDec, CheckExp;
  }

  lemma FloatIsFloat(v: string)
    requires StartsNumber(v)
    ensures NumberKind(v) == Success(FloatValue) <==> IsFloatTokenText(v)
  {
    hide NumberKind, IsFloatSplit;
    if NumberKind(v) == Success(FloatValue) {
      var i, j := FloatIsSplit(v);
    }
    if i, j :| 0 < i <= j <= |v| && IsFloatSplit(v, i, j) {
      SplitIsFloat(v, i, j);
    }
  }

  /** The number at the front of a text. */
  lemma NumberIs(s: string, kind: Kind, n: nat)
    requires StartsNumber(s) && 0 < n <= |s| && (kind == IntValue || kind == FloatValue)
    ensures NumberText(s) == Success(Lexeme(kind, n)) <==>
            IsTokenText(kind, s[..n]) && MayFollow(kind, s[..n], s[n..])
  {
    hide NumberKind, IsIntText, IsFloatSplit, EndsNumber;
    NumberRunIs(s[1..], n - 1);
    IntIsInt(s[..n]);
    FloatIsFloat(s[..n]);
    if IsTokenText(kind, s[..n]) {
      forall k | 0 < k < n
        ensures !EndsNumber(s[k])
      {
        NothingEndsInside(s[..n], kind, k);
      }
      assert forall i | 0 <= i < n - 1 :: s[1..][i] == s[i + 1];
    }
  }

  lemma NothingEndsInside(v: string, kind: Kind, k: nat)
    requires IsTokenText(kind, v) && (kind == IntValue || kind == FloatValue) && 0 < k < |v|
    ensures !EndsNumber(v[k])
  {
    if kind == IntValue {
      IntHasOnlyDigits(v);
    } else {
      var i, j :| 0 < i <= j <= |v| && IsFloatSplit(v, i, j);
      hide IsFloatSplit;
      NothingEndsInFloat(v, i, j, k);
    }
  }

  lemma NothingEndsInFloat(v: string, i: nat, j: nat, k: nat)
    requires 0 < i <= j <= |v| && IsFloatSplit(v, i, j) && 0 < k < |v|
    ensures !EndsNumber(v[k])
  {
    if k < i {
      IntHasOnlyDigits(v[..i]);
      assert v[k] == v[..i][k];
    } else if k < j {
      assert k > i ==> v[k] == v[i..j][1..][k - i - 1];
      assert v[k] == v[i..j][k - i];
    } else {
      assert v[k] == v[j..][k - j];
      assert k > j + 1 ==> v[k] == v[j..][2..][k - j - 2];
    }
  }

  // ----- Strings -----

  lemma {:induction false} StringEndIs(s: string, n: nat)
    requires 0 < n <= |s|
    ensures StringEnd(s, false) == Some(n) <==> s[n - 1] == '"' && IsStringBody(s[..n - 1])
    decreases |s|
  {
    var body := s[..n - 1];
    if s[0] == '\\' {
      if n > 2 {
        StringEndIs(s[2..], n - 2);
        assert s[2..][..n - 3] == body[2..];
        assert s[1..][1..] == s[2..];
      }
    } else if s[0] != '"' && n > 1 {
      StringEndIs(s[1..], n - 1);
      assert s[1..][..n - 2] == body[1..];
    }
  }

  /** Whether `i` is within three escaped quotes, past the first. */
  predicate IsInside(s: string, i: nat) {
    (SlashAt(s, i - 2) && TripleAt(s, i - 1)) || (SlashAt(s, i - 3) && TripleAt(s, i - 2))
  }

  /** Outside escaped quotes, three quotes close unless they are escaped, and then none of the three does. */
  lemma ClosesOrNot(s: string, i: nat)
    requires i + 3 <= |s| && !IsInside(s, i)
    ensures !TripleAt(s, i) ==> !ClosesAt(s, i) && !IsInside(s, i + 1)
    ensures TripleAt(s, i) && !SlashAt(s, i - 1) ==> ClosesAt(s, i)
    ensures TripleAt(s, i) && SlashAt(s, i - 1) ==>
              && !ClosesAt(s, i) && !ClosesAt(s, i + 1) && !ClosesAt(s, i + 2)
              && !IsInside(s, i + 3) && !SlashAt(s, i + 2)
  {
  }

  lemma BlockEndGoesOn(s: string, i: nat)
    requires i + 3 <= |s|
    ensures BlockEnd(s[i..], SlashAt(s, i - 1)) ==
            if !TripleAt(s, i) then Shift(1, BlockEnd(s[i + 1..], SlashAt(s, i)))
            else if SlashAt(s, i - 1) then Shift(3, BlockEnd(s[i + 3..], SlashAt(s, i + 2)))
            else Some(0)
  {
    TokenStreams.BlockEndStep(s, i, SlashAt(s, i - 1));
    hide BlockEnd;
    assert TripleAt(s, i) <==> s[i..i + 3] == QUOTES;
  }

  lemma {:induction false} BlockEndIs(s: string, i: nat, n: nat)
    requires i <= n && n + 3 <= |s| && !IsInside(s, i)
    ensures BlockEnd(s[i..], SlashAt(s, i - 1)) == Some(n - i) <==>
            ClosesAt(s, n) && forall m: nat | i <= m < n :: !ClosesAt(s, m)
    decreases |s| - i
  {
    BlockEndGoesOn(s, i);
    ClosesOrNot(s, i);
    hide BlockEnd, ClosesAt, IsInside, TripleAt, SlashAt;
    if TripleAt(s, i) {
      if SlashAt(s, i - 1) && n >= i + 3 {
        BlockEndIs(s, i + 3, n);
      }
    } else if n > i {
      BlockEndIs(s, i + 1, n);
    }
  }

  lemma StringIs(s: string, n: nat)
    requires 0 < n <= |s| && s[0] == '"' && !TripleAt(s, 0)
    ensures StringText(s) == Success(Lexeme(StringValue, n)) <==>
            IsTokenText(StringValue, s[..n]) && MayFollow(StringValue, s[..n], s[n..])
  {
    hide StringEnd, IsStringBody;
    if n > 1 {
      StringEndIs(s[1..], n - 1);
      assert s[1..][..n - 2] == s[..n][1..n - 1];
    }
  }

  /** Three quotes never start a string between single quotes. */
  lemma EmptyStringHasNoThirdQuote(s: string, n: nat)
    requires n <= |s| && TripleAt(s, 0)
    ensures !(IsTokenText(StringValue, s[..n]) && MayFollow(StringValue, s[..n], s[n..]))
  {
    assert n > 2 ==> s[..n][1..n - 1] == "" || s[..n][1..n - 1][0] == s[1];
    assert n == 2 ==> s[..n] == "\"\"";
  }

  lemma BlockIs(s: string, n: nat)
    requires n <= |s| && TripleAt(s, 0)
    ensures BlockStringText(s) == Success(Lexeme(BlockString, n)) <==> IsTokenText(BlockString, s[..n])
  {
    hide BlockEnd;
    if n >= 6 {
      var v := s[..n];
      BlockEndIs(s[3..], 0, n - 6);
      assert s[3..][0..] == s[3..];
      forall m: nat | m <= n - 6
        ensures ClosesAt(v[3..], m) <==> ClosesAt(s[3..], m)
      {
      }
    }
  }

  lemma PunctuatorsAre(s: string, n: nat)
    requires 0 < n <= |s|
    ensures TakeText(s) == Success(Lexeme(Punctuator, n)) <==>
            IsTokenText(Punctuator, s[..n]) && MayFollow(Punctuator, s[..n], s[n..])
  {
    var v := s[..n];
    assert v[0] == s[0];
    if v == "..." {
      assert "..." <= s;
    }
    if n == 1 {
      assert v == [s[0]];
    }
  }

  lemma NamesAre(s: string, n: nat)
    requires 0 < n <= |s|
    ensures TakeText(s) == Success(Lexeme(Name, n)) <==>
            IsTokenText(Name, s[..n]) && MayFollow(Name, s[..n], s[n..])
  {
    hide NumberText, BlockStringText, StringText;
    NameRunIs(s[1..], n - 1);
    assert InName(s[0]) && (forall i | 0 <= i < n - 1 :: InName(s[1..][i])) <==> forall i | 0 <= i < n :: InName(s[i]);
  }

  lemma NumbersAre(s: string, kind: Kind, n: nat)
    requires 0 < n <= |s| && (kind == IntValue || kind == FloatValue)
    ensures TakeText(s) == Success(Lexeme(kind, n)) <==>
            IsTokenText(kind, s[..n]) && MayFollow(kind, s[..n], s[n..])
  {
    hide NumberText, BlockStringText, StringText;
    if StartsNumber(s) {
      NumberIs(s, kind, n);
    } else if IsTokenText(kind, s[..n]) {
      if kind == IntValue {
        IntHasOnlyDigits(s[..n]);
      } else {
        var i, j :| 0 < i <= j <= n && IsFloatSplit(s[..n], i, j);
        IntHasOnlyDigits(s[..n][..i]);
      }
    }
  }

  lemma StringsAre(s: string, kind: Kind, n: nat)
    requires 0 < n <= |s| && (kind == StringValue || kind == BlockString)
    ensures TakeText(s) == Success(Lexeme(kind, n)) <==>
            IsTokenText(kind, s[..n]) && MayFollow(kind, s[..n], s[n..])
  {
    hide NumberText, BlockStringText, StringText, IsStringBody, IsBlockEnd;
    if TripleAt(s, 0) {
      EmptyStringHasNoThirdQuote(s, n);
      BlockIs(s, n);
    } else if s[0] == '"' {
      StringIs(s, n);
    }
  }

  /** The token at the front of a text is the text of a token that what follows leaves complete, and no other. */
  lemma TakenExactlyWhen(s: string, kind: Kind, n: nat)
    requires 0 < n <= |s|
    ensures TakeText(s) == Success(Lexeme(kind, n)) <==>
            IsTokenText(kind, s[..n]) && MayFollow(kind, s[..n], s[n..])
  {
    hide TakeText, IsTokenText, MayFollow;
    match kind
    case Punctuator => PunctuatorsAre(s, n);
    case Name => NamesAre(s, n);
    case IntValue | FloatValue => NumbersAre(s, kind, n);
    case StringValue | BlockString => StringsAre(s, kind, n);
  }

  /** A point or an `e` within a number. */
  predicate IsFloatMark(s: string, k: nat)
    requires k < |s|
  {
    (s[k] == '.' || s[k] == 'e' || s[k] == 'E') && forall j | 0 < j < k :: !EndsNumber(s[j])
  }

  lemma MarksAreFound(s: string)
    requires StartsNumber(s)
    ensures var text := s[..1 + NumberRun(s[1..])];
            LastOf(text, {'e', 'E'}).Some? || LastOf(text, {'.'}).Some? <==>
            exists k | 0 < k < |s| :: IsFloatMark(s, k)
  {
    var n := 1 + NumberRun(s[1..]);
    var text := s[..n];
    NumberRunIs(s[1..], n - 1);
    forall j | 0 < j < n
      ensures !EndsNumber(s[j])
    {
      assert s[1..][j - 1] == s[j];
    }
    hide LastOf;
    if k :| 0 < k < |s| && IsFloatMark(s, k) {
      assert k < n ==> text[k] == s[k];
      assert text[k] in {'e', 'E'} || text[k] in {'.'};
    }
    forall k | 0 < k < n && (text[k] in {'e', 'E'} || text[k] in {'.'})
      ensures IsFloatMark(s, k)
    {
    }
  }

  /** Which error it is depends on the first character, and for a number on what it is made of. */
  lemma ErrorsTellWhatFailed(s: string)
    requires TakeText(s).Failure?
    ensures TakeText(s).error ==
            if s == "" then EndOfInput
            else if s[0] == '.' then BareDot
            else if TripleAt(s, 0) then UnterminatedBlockString
            else if s[0] == '"' then UnterminatedString
            else if StartsNumber(s) then
              if exists k | 0 < k < |s| :: IsFloatMark(s, k) then UnsupportedFloat else UnsupportedInteger
            else UnexpectedCharacter
  {
    hide LastOf, IsFloatMark, CheckInt, CheckFloat;
    if StartsNumber(s) {
      MarksAreFound(s);
    }
  }

  // ----- Whole texts -----

  predicate Deepens(v: string) { v == "(" || v == "[" || v == "{" }

  predicate Closes(v: string) { v == ")" || v == "]" || v == "}" }

  /** The depth that may still be opened behind a token. */
  function Left(v: string, budget: nat): int {
    if Deepens(v) then budget - 1
    else if Closes(v) && budget < 0xFFFF_FFFF_FFFF_FFFF then budget + 1
    else budget
  }

  /** Ignored text in front of a token of this text, and `t` behind it. */
  ghost predicate StartsWith(s: string, tok: Token, t: string) {
    && IsTokenText(tok.kind, tok.value)
    && MayFollow(tok.kind, tok.value, t)
    && exists ps :: ArePieces(ps) && s == Joined(ps) + tok.value + t
  }

  predicate HoldsOnly(s: string, ps: seq<string>, c: string) {
    ArePieces(ps) && (c == "" || IsOpenComment(c)) && s == Joined(ps) + c
  }

  /** The text is ignored text and tokens in turn, and no bracket opens deeper than `budget`. */
  ghost predicate ConsistsOf(s: string, budget: nat, i: Input)
    decreases i
  {
    match i
    case End(e) => e == EndOfInput && exists ps, c :: HoldsOnly(s, ps, c)
    case More(tok, rest) =>
      && Left(tok.value, budget) >= 0
      && exists t :: StartsWith(s, tok, t) && ConsistsOf(t, Left(tok.value, budget), rest)
  }

  lemma FirstCharacterTells(kind: Kind, v: string)
    requires IsTokenText(kind, v)
    ensures v != "" && v[0] != '#' && !IsIgnorable(v[0])
    ensures (IsOpen(v[0]) <==> Deepens(v)) && (IsClose(v[0]) <==> Closes(v))
  {
    if kind == IntValue {
      IntHasOnlyDigits(v);
    } else if kind == FloatValue {
      var i, j :| 0 < i <= j <= |v| && IsFloatSplit(v, i, j);
      IntHasOnlyDigits(v[..i]);
    }
  }

  lemma SpendIsLeft(kind: Kind, v: string, budget: nat)
    requires IsTokenText(kind, v)
    ensures v != "" && Spend(budget, v[0]) == if Left(v, budget) >= 0 then Some(Left(v, budget)) else None
  {
    FirstCharacterTells(kind, v);
    hide IsTokenText;
  }

  /** A scan in one step from the front. */
  lemma ScanTakes(v: string, t: string, kind: Kind, budget: nat)
    requires IsTokenText(kind, v) && MayFollow(kind, v, t)
    ensures Scan(v + t, budget) ==
            if Left(v, budget) >= 0 then More(Token(kind, v), Scan(t, Left(v, budget)))
            else End(RecursionLimitExceeded)
  {
    var s := v + t;
    FirstCharacterTells(kind, v);
    assert s[0] == v[0] && s[..|v|] == v && s[|v|..] == t;
    hide IsTokenText, MayFollow, TakeText;
    IgnoredEnd(s, false, Pos(0, 0));
    assert s[0..] == s;
    TakenExactlyWhen(s, kind, |v|);
    ScanStep(s, budget);
    SpendIsLeft(kind, v, budget);
  }

  lemma PiecesInFront(s: string) returns (ps: seq<string>)
    requires s[IgnoredLen(s, false)..] != ""
    ensures ArePieces(ps) && s == Joined(ps) + s[IgnoredLen(s, false)..]
  {
    var c;
    ps, c := SkippedIsPieces(s);
    var n := IgnoredLen(s, false);
    hide IgnoredLen, ArePieces, IsOpenComment;
    assert s == s[..n] + s[n..];
  }

  lemma PiecesOnly(s: string)
    requires s[IgnoredLen(s, false)..] == ""
    ensures exists ps, c :: HoldsOnly(s, ps, c)
  {
    var ps, c := SkippedIsPieces(s);
    hide IgnoredLen, ArePieces, IsOpenComment;
    assert s == s[..IgnoredLen(s, false)];
    assert HoldsOnly(s, ps, c);
  }

  lemma TakenIsThere(s: string)
    requires TakeText(s[IgnoredLen(s, false)..]).Success?
    ensures var t := s[IgnoredLen(s, false)..];
            var l := TakeText(t).value;
            StartsWith(s, Token(l.kind, t[..l.len]), t[l.len..])
  {
    var ps := PiecesInFront(s);
    var t := s[IgnoredLen(s, false)..];
    hide TakeText, IgnoredLen, IsTokenText, MayFollow, ArePieces;
    var l := TakeText(t).value;
    TakenExactlyWhen(t, l.kind, l.len);
    assert s == Joined(ps) + t[..l.len] + t[l.len..];
  }

  /** The token in front is there as described. */
  lemma TakenStarts(s: string)
    ensures var t := s[IgnoredLen(s, false)..];
            match TakeText(t)
            case Failure(e) => e == EndOfInput ==> exists ps, c :: HoldsOnly(s, ps, c)
            case Success(l) => StartsWith(s, Token(l.kind, t[..l.len]), t[l.len..])
  {
    var t := s[IgnoredLen(s, false)..];
    hide TakeText, IgnoredLen, StartsWith, HoldsOnly;
    if TakeText(t).Success? {
      TakenIsThere(s);
    } else if TakeText(t).error == EndOfInput {
      NothingAtEnd(t);
      PiecesOnly(s);
    }
  }

  lemma {:induction false} ScannedConsistsOf(s: string, budget: nat)
    requires Ending(Scan(s, budget)) == EndOfInput
    ensures ConsistsOf(s, budget, Scan(s, budget))
    decreases |s|
  {
    TakenStarts(s);
    ScanStep(s, budget);
    var t := s[IgnoredLen(s, false)..];
    hide TakeText, IgnoredLen, IsTokenText, MayFollow, HoldsOnly, Scan;
    if TakeText(t).Success? {
      var l := TakeText(t).value;
      SpendIsLeft(l.kind, t[..l.len], budget);
      ScannedConsistsOf(t[l.len..], Left(t[..l.len], budget));
    }
  }

  lemma {:induction false} ConsistingIsScanned(s: string, budget: nat, i: Input)
    requires ConsistsOf(s, budget, i)
    ensures Scan(s, budget) == i && Ending(i) == EndOfInput
    decreases i
  {
    hide IsTokenText, MayFollow, Scan;
    match i
    case End(_) =>
      var ps, c :| HoldsOnly(s, ps, c);
      NothingFollows(ps, c, budget);
    case More(tok, rest) =>
      var t :| StartsWith(s, tok, t) && ConsistsOf(t, Left(tok.value, budget), rest);
      var ps :| ArePieces(ps) && s == Joined(ps) + tok.value + t;
      assert s == Joined(ps) + (tok.value + t);
      IgnoredTextChangesNothing(ps, tok.value + t, budget);
      ScanTakes(tok.value, t, tok.kind, budget);
      ConsistingIsScanned(t, Left(tok.value, budget), rest);
  }

  /** The tokens of a text are the ones it consists of, and it is refused exactly when it consists of none. */
  lemma ScannedExactlyWhen(s: string, budget: nat, i: Input)
    ensures Scan(s, budget) == i && Ending(i) == EndOfInput <==> ConsistsOf(s, budget, i)
  {
    if ConsistsOf(s, budget, i) {
      ConsistingIsScanned(s, budget, i);
    }
    if Scan(s, budget) == i && Ending(i) == EndOfInput {
      ScannedConsistsOf(s, budget);
    }
  }

  /** The line goes up by the line feeds in a token; the column counts on, or from the last of them. */
  lemma PositionAfterToken(kind: Kind, v: string, pos: Pos)
    requires IsTokenText(kind, v)
    ensures PosAfterToken(kind, v, pos).line == pos.line + multiset(v)['\n']
    ensures '\n' !in v ==> PosAfterToken(kind, v, pos).column == pos.column + |v|
    ensures forall k | 0 <= k < |v| && v[k] == '\n' && '\n' !in v[k + 1..] ::
              PosAfterToken(kind, v, pos).column == |v| - k
  {
    if kind == BlockString {
      LinesInText(v, pos);
      if '\n' !in v {
        ColumnOnOneLine(v, pos);
      }
      forall k | 0 <= k < |v| && v[k] == '\n' && '\n' !in v[k + 1..]
        ensures PosAfterText(v, pos).column == |v| - k
      {
        ColumnAfterLineFeed(v, k, pos);
      }
    } else {
      NoLineFeedInside(kind, v);
    }
  }

  function Advanced(c: char, pos: Pos): Pos {
    if c == '\n' then Pos(pos.line + 1, 1) else Pos(pos.line, pos.column + 1)
  }

  lemma {:induction false} LinesInText(v: string, pos: Pos)
    ensures PosAfterText(v, pos).line == pos.line + multiset(v)['\n']
  {
    if v != "" {
      LinesInText(v[1..], Advanced(v[0], pos));
      assert v == [v[0]] + v[1..];
    }
  }

  lemma {:induction false} ColumnOnOneLine(v: string, pos: Pos)
    requires '\n' !in v
    ensures PosAfterText(v, pos).column == pos.column + |v|
  {
    if v != "" {
      ColumnOnOneLine(v[1..], Advanced(v[0], pos));
    }
  }

  lemma {:induction false} ColumnAfterLineFeed(v: string, k: nat, pos: Pos)
    requires k < |v| && v[k] == '\n' && '\n' !in v[k + 1..]
    ensures PosAfterText(v, pos).column == |v| - k
  {
    if k == 0 {
      ColumnOnOneLine(v[1..], Advanced(v[0], pos));
    } else {
      assert v[1..][k..] == v[k + 1..];
      ColumnAfterLineFeed(v[1..], k - 1, Advanced(v[0], pos));
    }
  }

  lemma NoLineFeedInside(kind: Kind, v: string)
    requires IsTokenText(kind, v) && kind != BlockString
    ensures '\n' !in v
  {
    match kind
    case Punctuator | Name =>
    case IntValue | FloatValue =>
      forall k | 0 < k < |v|
        ensures v[k] != '\n'
      {
        NothingEndsInside(v, kind, k);
      }
      FirstCharacterTells(kind, v);
    case StringValue =>
      NoLineFeedInBody(v[1..|v| - 1]);
      assert v == [v[0]] + v[1..|v| - 1] + [v[|v| - 1]];
  }

  lemma {:induction false} NoLineFeedInBody(b: string)
    requires IsStringBody(b)
    ensures '\n' !in b
  {
    if b != "" {
      NoLineFeedInBody(b[if b[0] == '\\' then 2 else 1..]);
    }
  }

  // ----- The values of integers -----

  /** An integer token is the text of its value, except that `-0` is 0, and it is refused beyond 64 bits. */
  lemma IntTokenIsRead(v: string, n: int)
    requires IsIntText(v)
    ensures ParseI64(v) == Some(n) <==> IsI64(n) && (v == IntText(n) || (v == "-0" && n == 0))
  {
    var digits := if v[0] == '-' then v[1..] else v;
    NumeralOfDigits(digits);
    var m: int := DigitsValue(digits, 10).value;
    hide Numeral, DigitsValue;
    if v[0] == '-' && m == 0 {
      MinusZero(digits);
    } else {
      var value := if v[0] == '-' then -m else m;
      assert v == IntText(value) by {
        assert v[0] == '-' ==> v == "-" + digits;
      }
      hide IntText, ParseI64, IsIntText;
      IntTextRoundTrip(value);
    }
    hide IntText, ParseI64, IsIntText;
    IntTextRoundTrip(n);
  }

  lemma MinusZero(digits: string)
    requires IsIntText("-" + digits) && DigitsValue(digits, 10) == Some(0)
    ensures "-" + digits == "-0" && ParseI64("-0") == Some(0)
  {
  }

  // ----- Floats of the standard that are no tokens -----

  /** FloatValue of section 2.9.2 of the GraphQL specification. */
  predicate IsFloatValueSplit(v: string, i: nat, j: nat)
    requires i <= j <= |v|
  {
    && i < |v|
    && IsIntText(v[..i])
    && (i == j || IsFractionText(v[i..j]))
    && (j == |v| || IsStandardExponent(v[j..]))
  }

  predicate IsStandardExponent(v: string) {
    && |v| > 1
    && (v[0] == 'e' || v[0] == 'E')
    && var digits := if v[1] == '+' || v[1] == '-' then v[2..] else v[1..];
       digits != "" && AreDigits(digits)
  }

  /** A float of the standard is refused exactly when 0 or 9 comes right after its `e`. */
  lemma FloatIsRefusedExactlyWhen(v: string, i: nat, j: nat)
    requires 0 < i <= j <= |v| && IsFloatValueSplit(v, i, j)
    ensures !IsFloatTokenText(v) <==> j < |v| && (v[j + 1] == '0' || v[j + 1] == '9')
  {
    if IsFloatTokenText(v) {
      var x, y :| 0 < x <= y <= |v| && IsFloatSplit(v, x, y);
      if j < |v| {
        PointsAndLetters(v, x, y, j);
      }
    } else {
      assert !IsFloatSplit(v, i, j);
      assert v[j..][1] == v[j + 1];
    }
  }
}
