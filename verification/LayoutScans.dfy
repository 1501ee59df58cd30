/**
 Scanning the text of a layout gives the tokens of the layout, as far as the nesting budget
 reaches.

 A layout is spaced when its gaps are ignorable, its tokens are scanned as such wherever
 they stand before a delimiter, and no token runs into the text after it.  `ScanOfLayout`
 says what the scan of a spaced layout gives.  The lemmas after it say of the layout of each
 kind of syntax that, put in front of a spaced layout, it is spaced again, and that it needs
 a nesting budget of the depth of its brackets and hands on what it was given.
 */
module LayoutScans {
  import opened Wrappers
  import opened Lexer
  import opened Ast
  import opened Layout
  import opened WellFormed
  import Numerals
  import QuotedStrings
  import BlockStrings
  import BlockStringRoundTrip

  /** The text of the token is scanned as the token wherever it stands before a delimiter. */
  ghost predicate IsToken(k: Token) {
    forall rest: string | k.kind == Punctuator || rest == "" || IsDelimiter(rest[0]) ::
      TakeText(k.value + rest) == Success(Lexeme(k.kind, |k.value|))
  }

  predicate IsGapText(s: string) {
    forall i | 0 <= i < |s| :: s[i] == ' ' || s[i] == '\n' || s[i] == ','
  }

  /** The text begins with a delimiter, or is empty. */
  predicate StartsClean(c: Chunks) {
    match c
    case Nil => true
    case Cons(Gap(g), _) => g != ""
    case Cons(Tok(k), _) => k.kind == Punctuator && k.value != "" && IsDelimiter(k.value[0])
  }

  /** Gaps are ignorable, tokens are tokens, and no token runs into the text after it. */
  ghost predicate Spaced(c: Chunks) {
    match c
    case Nil => true
    case Cons(Gap(g), t) => IsGapText(g) && Spaced(t)
    case Cons(Tok(k), t) => IsToken(k) && (k.kind == Punctuator || StartsClean(t)) && Spaced(t)
  }

  lemma CleanText(c: Chunks)
    requires Spaced(c) && StartsClean(c)
    ensures Render(c) == "" || IsDelimiter(Render(c)[0])
  {
    if c.Cons? {
      assert Render(c)[0] == TextOf(c.head)[0];
    }
  }

  lemma TokenIsNotIgnored(s: string)
    requires TakeText(s).Success?
    ensures IgnoredLen(s, false) == 0
  {
  }

  lemma {:induction false} GapIsIgnored(g: string, t: string, budget: nat)
    requires IsGapText(g)
    ensures Scan(g + t, budget) == Scan(t, budget)
  {
    hide Take;
    if g == "" {
      assert g + t == t;
    } else {
      assert (g + t)[1..] == g[1..] + t;
      GapIsIgnored(g[1..], t, budget);
      var n := IgnoredLen(g[1..] + t, false);
      assert (g + t)[n + 1..] == (g[1..] + t)[n..];
    }
  }

  /**
   The scan of a spaced layout: all of its tokens if they fit the budget, and otherwise
   the recursion limit error.
   */
  lemma {:induction false} ScanOfLayout(c: Chunks, budget: nat)
    requires Spaced(c) && budget + |Render(c)| < USIZE_MAX
    ensures Fits(TokensOf(c), budget) ==> Scan(Render(c), budget) == TokensOf(c)
    ensures !Fits(TokensOf(c), budget) ==> Ending(Scan(Render(c), budget)) == RecursionLimitExceeded
  {
    hide IsToken, TakeText, Scan, StartsClean, IsGapText;
    match c
    case Nil =>
      ScanOfNothing(budget);
    case Cons(Gap(g), t) =>
      GapIsIgnored(g, Render(t), budget);
      ScanOfLayout(t, budget);
    case Cons(Tok(k), t) =>
      if StartsClean(t) {
        CleanText(t);
      }
      TokenBefore(k, Render(t));
      ScanOneToken(k, Render(t), budget);
      if Spend(budget, k.value[0]).Some? {
        ScanOfLayout(t, Spend(budget, k.value[0]).value);
      }
  }

  lemma ScanOfNothing(budget: nat)
    ensures Scan("", budget) == End(EndOfInput)
  {
    assert ""[0..] == "";
  }

  lemma TokenBefore(k: Token, rest: string)
    requires IsToken(k)
    requires k.kind == Punctuator || rest == "" || IsDelimiter(rest[0])
    ensures TakeText(k.value + rest) == Success(Lexeme(k.kind, |k.value|))
  {
  }

  lemma ScanOneToken(k: Token, rest: string, budget: nat)
    requires TakeText(k.value + rest) == Success(Lexeme(k.kind, |k.value|))
    ensures k.value != ""
    ensures Scan(k.value + rest, budget) ==
            match Spend(budget, k.value[0])
            case None => End(RecursionLimitExceeded)
            case Some(after) => More(k, Scan(rest, after))
  {
    var s := k.value + rest;
    TokenIsNotIgnored(s);
    hide TakeText, IgnoredLen;
    assert s[0..] == s;
    assert s[..|k.value|] == k.value && s[|k.value|..] == rest;
    assert s[0] == k.value[0];
  }

  // ----- The tokens the printers write -----

  predicate IsPunctuator(v: string) {
    || v == "..."
    || (|v| == 1 && (IsOpen(v[0]) || IsClose(v[0]) || IsSymbol(v[0])))
  }

  lemma PunctuatorIsToken(v: string)
    requires IsPunctuator(v)
    ensures IsToken(Token(Punctuator, v))
  {
    forall rest: string ensures TakeText(v + rest) == Success(Lexeme(Punctuator, |v|)) {
      assert (v + rest)[0] == v[0];
      if v == "..." {
        assert (v + rest)[..3] == "...";
      }
    }
  }

  lemma DelimiterEndsName(c: char)
    requires IsDelimiter(c)
    ensures !IsNameChar(c)
  {
  }

  lemma {:induction false} NameRunUpTo(n: string, rest: string)
    requires forall i | 0 <= i < |n| :: IsNameChar(n[i])
    requires rest == "" || IsDelimiter(rest[0])
    ensures NameRun(n + rest) == |n|
  {
    if n == "" {
      assert n + rest == rest;
      if rest != "" {
        DelimiterEndsName(rest[0]);
      }
    } else {
      assert (n + rest)[1..] == n[1..] + rest;
      NameRunUpTo(n[1..], rest);
    }
  }

  lemma NameIsToken(n: string)
    requires ValidName(n)
    ensures IsToken(Token(Name, n))
  {
    forall rest: string | rest == "" || IsDelimiter(rest[0])
      ensures TakeText(n + rest) == Success(Lexeme(Name, |n|))
    {
      NameRunUpTo(n[1..], rest);
      assert (n + rest)[1..] == n[1..] + rest;
      assert (n + rest)[0] == n[0];
    }
  }

  lemma {:induction false} NumberRunUpTo(n: string, rest: string)
    requires AllDigits(n)
    requires rest == "" || IsDelimiter(rest[0])
    ensures NumberRun(n + rest) == |n|
  {
    if n == "" {
      assert n + rest == rest;
    } else {
      assert (n + rest)[1..] == n[1..] + rest;
      NumberRunUpTo(n[1..], rest);
    }
  }

  lemma DigitsOf(n: nat)
    ensures var s := Numerals.Numeral(n, 10); AllDigits(s) && (s[0] == '0' ==> |s| == 1)
  {
    var s := Numerals.Numeral(n, 10);
    forall i | 0 <= i < |s| ensures IsDigit(s[i]) {
      assert Numerals.DigitValue(s[i]).Some?;
    }
  }

  lemma IntTextIsIntValue(n: int)
    ensures var s := Numerals.IntText(n);
            && IsIntValueText(s)
            && (s[0] == '-' || IsDigit(s[0]))
            && AllDigits(s[1..])
  {
    var s := Numerals.IntText(n);
    if n < 0 {
      DigitsOf(-n);
      assert s[1..] == Numerals.Numeral(-n, 10);
    } else {
      DigitsOf(n);
    }
  }

  lemma IntTextKind(s: string)
    requires IsIntValueText(s) && (s[0] == '-' || IsDigit(s[0])) && AllDigits(s[1..])
    ensures NumberKind(s) == Success(IntValue)
  {
    CheckIntIsIntValue(s);
    hide CheckInt;
    forall i | 0 <= i < |s| ensures s[i] == '-' || IsDigit(s[i]) {
      if i > 0 { assert s[i] == s[1..][i - 1]; }
    }
  }

  lemma IntIsToken(n: int)
    ensures IsToken(Token(IntValue, Numerals.IntText(n)))
  {
    hide TakeText, NumberKind, Numerals.IntText;
    var s := Numerals.IntText(n);
    IntTextIsIntValue(n);
    IntTextKind(s);
    forall rest: string | rest == "" || IsDelimiter(rest[0])
      ensures TakeText(s + rest) == Success(Lexeme(IntValue, |s|))
    {
      NumberBefore(s, rest);
    }
  }

  lemma NumberBefore(s: string, rest: string)
    requires s != "" && (s[0] == '-' || IsDigit(s[0])) && AllDigits(s[1..])
    requires NumberKind(s) == Success(IntValue)
    requires rest == "" || IsDelimiter(rest[0])
    ensures TakeText(s + rest) == Success(Lexeme(IntValue, |s|))
  {
    hide NumberKind, AllDigits;
    NumberRunUpTo(s[1..], rest);
    assert (s + rest)[1..] == s[1..] + rest;
    assert (s + rest)[0] == s[0];
    assert (s + rest)[..|s|] == s;
  }

  lemma StringIsToken(s: string, indent: nat, step: nat)
    ensures IsToken(StringToken(s, indent, step))
  {
    hide TakeText;
    var k := StringToken(s, indent, step);
    forall rest: string | rest == "" || IsDelimiter(rest[0])
      ensures TakeText(k.value + rest) == Success(Lexeme(k.kind, |k.value|))
    {
      if IsMultiline(s) {
        BlockStringRoundTrip.BlockIsOneToken(s, indent, step, rest);
      } else {
        QuotedStrings.QuotedIsOneToken(s, rest);
      }
    }
  }

  // ----- Layouts of syntax trees are spaced, and need a budget of their depth -----

  lemma StringNesting(s: string, indent: nat, step: nat)
    ensures NetOpen(StringToken(s, indent, step)) == 0
  {
  }

  /** What holds of a layout `x` put in front of `c`: it is spaced, and it needs a budget of `depth`. */
  ghost predicate Fine(x: Chunks, c: Chunks, depth: nat, budget: nat) {
    && Spaced(x)
    && (Fits(TokensOf(x), budget) <==> depth <= budget && Fits(TokensOf(c), budget))
  }

  lemma FineToken(k: Token, c: Chunks, budget: nat)
    requires IsToken(k) && NetOpen(k) == 0 && Spaced(c)
    requires k.kind == Punctuator || StartsClean(c)
    ensures Fine(Cons(Tok(k), c), c, 0, budget)
  {
  }

  lemma FineGap(g: string, c: Chunks, budget: nat)
    requires IsGapText(g) && Spaced(c)
    ensures Fine(G(g, c), c, 0, budget)
  {
  }

  lemma FinePunct(v: string, c: Chunks, budget: nat)
    requires IsPunctuator(v) && !IsOpen(v[0]) && !IsClose(v[0]) && Spaced(c)
    ensures Fine(P(v, c), c, 0, budget)
  {
    PunctuatorIsToken(v);
  }

  lemma FineName(n: string, c: Chunks, budget: nat)
    requires ValidName(n) && Spaced(c) && StartsClean(c)
    ensures Fine(N(n, c), c, 0, budget)
  {
    NameIsToken(n);
  }

  predicate Matching(open: string, close: string) {
    (open == "(" && close == ")") || (open == "[" && close == "]") || (open == "{" && close == "}")
  }

  /** The closing bracket gives back what the opening one took. */
  lemma FineClose(open: string, close: string, c: Chunks)
    requires Matching(open, close) && Spaced(c)
    ensures Spaced(P(close, c)) && StartsClean(P(close, c))
    ensures forall b: nat :: Fits(TokensOf(P(close, c)), b) <==> Fits(TokensOf(c), b + 1)
  {
    PunctuatorIsToken(close);
    hide IsToken;
    assert NetOpen(Token(Punctuator, close)) == -1;
    assert TokensOf(P(close, c)) == More(Token(Punctuator, close), TokensOf(c));
  }

  lemma FineOpen(open: string, close: string, inside: Chunks, c: Chunks, depth: nat, budget: nat)
    requires Matching(open, close) && Spaced(c)
    requires Spaced(inside) && (budget > 0 ==> Fine(inside, P(close, c), depth, budget - 1))
    ensures Fine(P(open, inside), c, 1 + depth, budget)
  {
    FineClose(open, close, c);
    PunctuatorIsToken(open);
  }

  // ----- Values -----

  lemma {:induction false} FineValue(v: Value, indent: nat, step: nat, variables: bool, c: Chunks, budget: nat)
    requires WfValue(v, indent, variables) && Spaced(c) && StartsClean(c)
    ensures Fine(ValueC(v, indent, step, c), c, ValueDepth(v), budget)
    decreases v
  {
    hide IsToken, ValidName, StringToken, Quotable;
    match v
    case Variable(n) =>
      FineName(n, c, budget);
      FinePunct("$", N(n, c), budget);
    case Int(n) =>
      IntIsToken(n);
      IntNesting(n);
      FineToken(Token(IntValue, Numerals.IntText(n)), c, budget);
    case String(s) =>
      StringIsToken(s, indent, step);
      StringNesting(s, indent, step);
      FineToken(StringToken(s, indent, step), c, budget);
    case Boolean(b) =>
      Keywords();
      FineName(if b then "true" else "false", c, budget);
    case Null =>
      Keywords();
      FineName("null", c, budget);
    case Enum(n) =>
      FineName(n, c, budget);
    case List(items) =>
      FineClose("[", "]", c);
      var inside := ValuesC(items, indent, step, P("]", c));
      FineValues(items, indent, step, variables, P("]", c), if budget > 0 then budget - 1 else 0);
      FineOpen("[", "]", inside, c, ValuesDepth(items), budget);
    case Object(fields) =>
      FineClose("{", "}", c);
      var inside := MembersC(fields, indent, step, P("}", c));
      FineMembers(fields, indent, step, variables, P("}", c), if budget > 0 then budget - 1 else 0);
      FineOpen("{", "}", inside, c, MembersDepth(fields), budget);
  }

  lemma IntNesting(n: int)
    ensures NetOpen(Token(IntValue, Numerals.IntText(n))) == 0
  {
    IntTextIsIntValue(n);
  }

  lemma Keywords()
    ensures ValidName("true") && ValidName("false") && ValidName("null") && ValidName("on") && ValidName("fragment")
    ensures ValidName("query") && ValidName("mutation") && ValidName("subscription")
  {
  }

  lemma {:induction false} FineValues(vs: seq<Value>, indent: nat, step: nat, variables: bool, c: Chunks, budget: nat)
    requires WfValues(vs, indent, variables) && Spaced(c) && StartsClean(c)
    ensures Fine(ValuesC(vs, indent, step, c), c, ValuesDepth(vs), budget)
    decreases vs
  {
    if vs != [] {
      var later := if |vs| == 1 then c else G(", ", ValuesC(vs[1..], indent, step, c));
      FineValues(vs[1..], indent, step, variables, c, budget);
      FineGap(", ", ValuesC(vs[1..], indent, step, c), budget);
      FineValue(vs[0], indent, step, variables, later, budget);
    }
  }

  lemma {:induction false} FineMembers(ms: seq<Member>, indent: nat, step: nat, variables: bool, c: Chunks, budget: nat)
    requires WfMembers(ms, indent, variables) && Spaced(c) && StartsClean(c)
    ensures Fine(MembersC(ms, indent, step, c), c, MembersDepth(ms), budget)
    decreases ms
  {
    if ms != [] {
      var later := if |ms| == 1 then c else G(", ", MembersC(ms[1..], indent, step, c));
      FineMembers(ms[1..], indent, step, variables, c, budget);
      FineGap(", ", MembersC(ms[1..], indent, step, c), budget);
      FineValue(ms[0].value, indent, step, variables, later, budget);
      FineNamed(ms[0].name, ValueC(ms[0].value, indent, step, later), budget);
    }
  }

  /** A name, a colon and a blank in front of `c`. */
  lemma FineNamed(n: string, c: Chunks, budget: nat)
    requires ValidName(n) && Spaced(c)
    ensures Fine(N(n, P(":", G(" ", c))), c, 0, budget)
  {
    hide IsToken, ValidName;
    FineGap(" ", c, budget);
    FinePunct(":", G(" ", c), budget);
    FineName(n, P(":", G(" ", c)), budget);
  }

  // ----- Arguments, directives, types, variables -----

  lemma FineArguments(ms: seq<Member>, indent: nat, step: nat, c: Chunks, budget: nat)
    requires WfMembers(ms, indent, true) && Spaced(c) && StartsClean(c)
    ensures Fine(ArgumentsC(ms, indent, step, c), c, ArgumentsDepth(ms), budget)
    ensures StartsClean(ArgumentsC(ms, indent, step, c))
  {
    hide IsToken, ValidName;
    if ms != [] {
      FineClose("(", ")", c);
      FineMembers(ms, indent, step, true, P(")", c), if budget > 0 then budget - 1 else 0);
      FineOpen("(", ")", MembersC(ms, indent, step, P(")", c)), c, MembersDepth(ms), budget);
    }
  }

  lemma {:induction false} FineDirectives(ds: seq<Directive>, indent: nat, step: nat, c: Chunks, budget: nat)
    requires WfDirectives(ds, indent) && Spaced(c) && StartsClean(c)
    ensures Fine(DirectivesC(ds, indent, step, c), c, DirectivesDepth(ds), budget)
    ensures StartsClean(DirectivesC(ds, indent, step, c))
  {
    hide IsToken, ValidName;
    if ds != [] {
      var later := DirectivesC(ds[1..], indent, step, c);
      FineDirectives(ds[1..], indent, step, c, budget);
      FineArguments(ds[0].arguments, indent, step, later, budget);
      var arguments := ArgumentsC(ds[0].arguments, indent, step, later);
      FineName(ds[0].name, arguments, budget);
      FinePunct("@", N(ds[0].name, arguments), budget);
      FineGap(" ", P("@", N(ds[0].name, arguments)), budget);
    }
  }

  lemma {:induction false} FineType(t: Type, c: Chunks, budget: nat)
    requires WfType(t) && Spaced(c) && StartsClean(c)
    ensures Fine(TypeC(t, c), c, TypeDepth(t), budget)
  {
    hide IsToken, ValidName;
    match t
    case NamedType(n) =>
      FineName(n, c, budget);
    case ListType(inner) =>
      FineClose("[", "]", c);
      FineType(inner, P("]", c), if budget > 0 then budget - 1 else 0);
      FineOpen("[", "]", TypeC(inner, P("]", c)), c, TypeDepth(inner), budget);
    case NonNullType(inner) =>
      FinePunct("!", c, budget);
      FineType(inner, P("!", c), budget);
  }

  lemma {:induction false} FineVariables(vs: seq<VariableDefinition>, step: nat, c: Chunks, budget: nat)
    requires WfVariables(vs) && Spaced(c) && StartsClean(c)
    ensures Fine(VariablesC(vs, step, c), c, VariablesDepth(vs), budget)
  {
    hide IsToken, ValidName;
    if vs != [] {
      var later := if |vs| == 1 then c else G(", ", VariablesC(vs[1..], step, c));
      FineVariables(vs[1..], step, c, budget);
      FineGap(", ", VariablesC(vs[1..], step, c), budget);
      var end := later;
      if vs[0].defaultValue.Some? {
        var value := ValueC(vs[0].defaultValue.value, 0, step, later);
        FineValue(vs[0].defaultValue.value, 0, step, false, later, budget);
        FineGap(" ", value, budget);
        FinePunct("=", G(" ", value), budget);
        FineGap(" ", P("=", G(" ", value)), budget);
        end := G(" ", P("=", G(" ", value)));
      }
      FineType(vs[0].varType, end, budget);
      FineNamed(vs[0].name, TypeC(vs[0].varType, end), budget);
      FinePunct("$", N(vs[0].name, P(":", G(" ", TypeC(vs[0].varType, end)))), budget);
    }
  }

  // ----- Selections -----

  lemma {:induction false} FineSelection(s: Selection, indent: nat, step: nat, c: Chunks, budget: nat)
    requires WfSelection(s, indent, step) && Spaced(c)
    ensures Fine(SelectionC(s, indent, step, c), c, SelectionDepth(s), budget)
    decreases s, 0
  {
    hide IsToken, ValidName;
    match s
    case Field(alias, name, arguments, directives, items) =>
      var end := if items != [] then G(" ", BlockC(items, indent, step, c)) else G("\n", c);
      if items != [] {
        FineBlock(items, indent, step, c, budget);
        FineGap(" ", BlockC(items, indent, step, c), budget);
      } else {
        FineGap("\n", c, budget);
      }
      FineDirectives(directives, indent, step, end, budget);
      var dirs := DirectivesC(directives, indent, step, end);
      FineArguments(arguments, indent, step, dirs, budget);
      var rest := N(name, ArgumentsC(arguments, indent, step, dirs));
      FineName(name, ArgumentsC(arguments, indent, step, dirs), budget);
      var whole := rest;
      if alias.Some? {
        FineNamed(alias.value, rest, budget);
        whole := N(alias.value, P(":", G(" ", rest)));
      }
      FineGap(BlockStrings.Spaces(indent), whole, budget);
    case FragmentSpread(name, directives) =>
      FineGap("\n", c, budget);
      FineDirectives(directives, indent, step, G("\n", c), budget);
      var dirs := DirectivesC(directives, indent, step, G("\n", c));
      FineName(name, dirs, budget);
      FinePunct("...", N(name, dirs), budget);
      FineGap(BlockStrings.Spaces(indent), P("...", N(name, dirs)), budget);
    case InlineFragment(condition, directives, items) =>
      FineBlock(items, indent, step, c, budget);
      var end := G(" ", BlockC(items, indent, step, c));
      FineGap(" ", BlockC(items, indent, step, c), budget);
      FineDirectives(directives, indent, step, end, budget);
      var dirs := DirectivesC(directives, indent, step, end);
      var whole := dirs;
      if condition.Some? {
        FineCondition(condition.value, dirs, budget);
        FineGap(" ", N("on", G(" ", N(condition.value, dirs))), budget);
        whole := G(" ", N("on", G(" ", N(condition.value, dirs))));
      }
      FinePunct("...", whole, budget);
      FineGap(BlockStrings.Spaces(indent), P("...", whole), budget);
  }

  lemma FineCondition(on: string, c: Chunks, budget: nat)
    requires ValidName(on) && Spaced(c) && StartsClean(c)
    ensures Fine(N("on", G(" ", N(on, c))), c, 0, budget)
  {
    Keywords();
    hide IsToken, ValidName;
    FineName(on, c, budget);
    FineGap(" ", N(on, c), budget);
    FineName("on", G(" ", N(on, c)), budget);
  }

  lemma {:induction false} FineBlock(items: seq<Selection>, indent: nat, step: nat, c: Chunks, budget: nat)
    requires WfSelections(items, indent + step, step) && Spaced(c)
    ensures Fine(BlockC(items, indent, step, c), c, 1 + SelectionsDepth(items), budget)
    decreases items, 1
  {
    hide IsToken;
    var end := G("\n", c);
    FineGap("\n", c, 0);
    FineClose("{", "}", end);
    var close := P("}", end);
    var last := G(BlockStrings.Spaces(indent), close);
    var b := if budget > 0 then budget - 1 else 0;
    FineGap(BlockStrings.Spaces(indent), close, b);
    FineSelections(items, indent + step, step, last, b);
    var inner := SelectionsC(items, indent + step, step, last);
    FineGap("\n", inner, b);
    FineOpen("{", "}", G("\n", inner), end, SelectionsDepth(items), budget);
  }

  lemma {:induction false} FineSelections(ss: seq<Selection>, indent: nat, step: nat, c: Chunks, budget: nat)
    requires WfSelections(ss, indent, step) && Spaced(c)
    ensures Fine(SelectionsC(ss, indent, step, c), c, SelectionsDepth(ss), budget)
    decreases ss, 0
  {
    hide IsToken;
    if ss != [] {
      FineSelections(ss[1..], indent, step, c, budget);
      FineSelection(ss[0], indent, step, SelectionsC(ss[1..], indent, step, c), budget);
    }
  }

  // ----- Definitions -----

  lemma FineDirected(directives: seq<Directive>, items: seq<Selection>, step: nat, c: Chunks, budget: nat)
    requires WfDirectives(directives, 0) && WfSelections(items, step, step) && Spaced(c)
    ensures var x := DirectivesC(directives, 0, step, G(" ", BlockC(items, 0, step, c)));
            Fine(x, c, Max(DirectivesDepth(directives), 1 + SelectionsDepth(items)), budget) && StartsClean(x)
  {
    hide IsToken;
    FineBlock(items, 0, step, c, budget);
    FineGap(" ", BlockC(items, 0, step, c), budget);
    FineDirectives(directives, 0, step, G(" ", BlockC(items, 0, step, c)), budget);
  }

  lemma FineOperation(d: Definition, step: nat, c: Chunks, budget: nat)
    requires d.Operation? && WfDefinition(d, step) && Spaced(c)
    ensures Fine(DefinitionC(d, true, step, c), c, DefinitionDepth(d), budget)
  {
    hide IsToken, BlockC, DirectivesC, VariablesC, ValidName, WfVariables, WfDirectives, WfSelections,
         DirectivesDepth, SelectionsDepth, VariablesDepth, Spaced, Fits;
    var Operation(kind, name, variables, directives, items) := d;
    var rest := DirectivesC(directives, 0, step, G(" ", BlockC(items, 0, step, c)));
    FineDirected(directives, items, step, c, budget);
    var after := DefinitionC(d, true, step, c).tail;
    var depth := if variables == [] then 0 else 1 + VariablesDepth(variables);
    assert Fine(after, rest, depth, budget) && StartsClean(after) by {
      if name.Some? {
        FineOperationName(name.value, variables, step, rest, budget);
      }
    }
    FineKeyword(kind, after, rest, c, depth, Max(DirectivesDepth(directives), 1 + SelectionsDepth(items)), budget);
  }

  lemma FineKeyword(kind: OperationType, after: Chunks, rest: Chunks, c: Chunks, d1: nat, d2: nat, budget: nat)
    requires Fine(after, rest, d1, budget) && Fine(rest, c, d2, budget) && StartsClean(after)
    ensures Fine(N(Keyword(kind), after), c, Max(d1, d2), budget)
  {
    Keywords();
    FineName(Keyword(kind), after, budget);
  }

  lemma FineOperationName(n: string, variables: seq<VariableDefinition>, step: nat, c: Chunks, budget: nat)
    requires ValidName(n) && WfVariables(variables) && Spaced(c) && StartsClean(c)
    ensures var list := if variables == [] then c else P("(", VariablesC(variables, step, P(")", c)));
            Fine(G(" ", N(n, list)), c, if variables == [] then 0 else 1 + VariablesDepth(variables), budget)
  {
    hide IsToken, ValidName, VariablesC;
    var list := if variables == [] then c else P("(", VariablesC(variables, step, P(")", c)));
    if variables != [] {
      FineParenthesized(variables, step, c, budget);
    }
    FineName(n, list, budget);
    FineGap(" ", N(n, list), budget);
  }

  lemma FineParenthesized(variables: seq<VariableDefinition>, step: nat, c: Chunks, budget: nat)
    requires WfVariables(variables) && Spaced(c)
    ensures var x := P("(", VariablesC(variables, step, P(")", c)));
            Fine(x, c, 1 + VariablesDepth(variables), budget) && StartsClean(x)
  {
    FineClose("(", ")", c);
    FineVariables(variables, step, P(")", c), if budget > 0 then budget - 1 else 0);
    FineOpen("(", ")", VariablesC(variables, step, P(")", c)), c, VariablesDepth(variables), budget);
  }

  lemma FineFragment(d: Definition, step: nat, c: Chunks, budget: nat)
    requires d.Fragment? && WfDefinition(d, step) && Spaced(c)
    ensures Fine(DefinitionC(d, true, step, c), c, DefinitionDepth(d), budget)
  {
    hide IsToken, BlockC, DirectivesC, ValidName, WfDirectives, WfSelections, DirectivesDepth, SelectionsDepth,
         Spaced, Fits;
    FineDirected(d.directives, d.selectionSet, step, c, budget);
    FineFragmentHead(d.name, d.typeCondition,
      DirectivesC(d.directives, 0, step, G(" ", BlockC(d.selectionSet, 0, step, c))), budget);
  }

  lemma FineFragmentHead(n: string, condition: string, c: Chunks, budget: nat)
    requires ValidName(n) && ValidName(condition) && Spaced(c) && StartsClean(c)
    ensures Fine(N("fragment", G(" ", N(n, G(" ", N("on", G(" ", N(condition, c))))))), c, 0, budget)
  {
    Keywords();
    hide IsToken, ValidName;
    FineCondition(condition, c, budget);
    var on := N("on", G(" ", N(condition, c)));
    FineGap(" ", on, budget);
    FineName(n, G(" ", on), budget);
    FineGap(" ", N(n, G(" ", on)), budget);
    FineName("fragment", G(" ", N(n, G(" ", on))), budget);
  }

  lemma FineDefinition(d: Definition, first: bool, step: nat, c: Chunks, budget: nat)
    requires WfDefinition(d, step) && Spaced(c)
    ensures Fine(DefinitionC(d, first, step, c), c, DefinitionDepth(d), budget)
  {
    hide IsToken;
    match d {
      case SelectionSet(items) =>
        FineBlock(items, 0, step, c, budget);
      case Operation(_, _, _, _, _) =>
        FineOperation(d, step, c, budget);
      case Fragment(_, _, _, _) =>
        FineFragment(d, step, c, budget);
    }
    FineGap("\n", DefinitionC(d, true, step, c), budget);
  }

  lemma {:induction false} FineDefinitions(ds: seq<Definition>, first: bool, step: nat, c: Chunks, budget: nat)
    requires WfDefinitions(ds, step) && Spaced(c)
    ensures Fine(DefinitionsC(ds, first, step, c), c, DefinitionsDepth(ds), budget)
    decreases ds
  {
    hide IsToken, WfDefinition, DefinitionC, DefinitionDepth;
    if ds != [] {
      var later := DefinitionsC(ds[1..], false, step, c);
      FineDefinitions(ds[1..], false, step, c, budget);
      FineDefinition(ds[0], first, step, later, budget);
    }
  }
}
