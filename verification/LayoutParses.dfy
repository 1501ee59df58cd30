/**
 Parsing the tokens of the layout of a well-formed syntax tree gives the tree and leaves
 what follows, whatever that is.
 */
module LayoutParses {
  import opened Wrappers
  import opened Lexer
  import opened Ast
  import opened Layout
  import opened WellFormed
  import opened Grammar
  import Numerals
  import QuotedStrings
  import BlockStrings
  import BlockStringRoundTrip

  predicate NextIs(i: Input, kind: Kind, value: string) {
    i.More? && i.tok == Token(kind, value)
  }

  predicate NextIsPunct(i: Input, value: string) {
    NextIs(i, Punctuator, value)
  }

  // ----- Values -----

  lemma QuotedParses(s: string, rest: Input)
    requires QuotedStrings.UnquoteBody(QuotedStrings.EscapeAll(s)) == Success(s)
    ensures PlainValue(More(Token(StringValue, QuotedStrings.Quoted(s)), rest)) == Ok(String(s), rest)
  {
    hide QuotedStrings.UnquoteBody, QuotedStrings.EscapeAll;
    var text := QuotedStrings.Quoted(s);
    assert text[1..|text| - 1] == QuotedStrings.EscapeAll(s);
  }

  lemma BlockQuotedParses(s: string, indent: nat, step: nat, rest: Input)
    requires BlockStrings.BlockValue(BlockStrings.BlockBody(s, indent, step)) == s
    ensures PlainValue(More(Token(BlockString, BlockStrings.BlockQuoted(s, indent, step)), rest)) == Ok(String(s), rest)
  {
    hide BlockStrings.BlockValue, BlockStrings.BlockBody;
    var text := BlockStrings.BlockQuoted(s, indent, step);
    assert text[3..|text| - 3] == BlockStrings.BlockBody(s, indent, step);
  }

  lemma StringParses(s: string, indent: nat, step: nat, c: Chunks)
    requires Quotable(s, indent)
    ensures PlainValue(TokensOf(Cons(Tok(StringToken(s, indent, step)), c))) == Ok(String(s), TokensOf(c))
  {
    hide QuotedStrings.Survives, BlockStringRoundTrip.Intact, PlainValue;
    if IsMultiline(s) {
      BlockStringRoundTrip.BlockRoundTrip(s, indent, step);
      BlockQuotedParses(s, indent, step, TokensOf(c));
    } else {
      QuotedStrings.QuotedRoundTrip(s);
      QuotedParses(s, TokensOf(c));
    }
  }

  lemma PlainIsValue(i: Input, variables: bool)
    requires PlainValue(i).Ok?
    ensures AValue(i, variables) == PlainValue(i)
  {
  }

  lemma PunctuatorIsNotPlain(i: Input)
    requires i.More? && i.tok.kind == Punctuator
    ensures PlainValue(i) == Fail(i)
  {
  }

  lemma VariableIsValue(n: string, rest: Input)
    ensures AValue(More(Token(Punctuator, "$"), More(Token(Name, n), rest)), true) == Ok(Variable(n), rest)
  {
    PunctuatorIsNotPlain(More(Token(Punctuator, "$"), More(Token(Name, n), rest)));
  }

  lemma ListIsValue(items: seq<Value>, variables: bool, i: Input, rest: Input)
    requires Values(i, variables) == Ok(items, More(Token(Punctuator, "]"), rest))
    ensures AValue(More(Token(Punctuator, "["), i), variables) == Ok(List(items), rest)
  {
    hide PlainValue;
    PunctuatorIsNotPlain(More(Token(Punctuator, "["), i));
  }

  lemma ObjectIsValue(ms: seq<Member>, variables: bool, i: Input, rest: Input)
    requires Members(i, variables) == Ok(ms, More(Token(Punctuator, "}"), rest))
    ensures AValue(More(Token(Punctuator, "{"), i), variables) == Ok(Object(Collect(ms)), rest)
  {
    hide PlainValue;
    PunctuatorIsNotPlain(More(Token(Punctuator, "{"), i));
  }

  lemma NoValueAtBracket(i: Input, variables: bool)
    requires NextIsPunct(i, "]")
    ensures AValue(i, variables) == Fail(i)
  {
    hide PlainValue;
    PunctuatorIsNotPlain(i);
  }

  lemma NameParses(n: string, rest: Input)
    ensures PlainValue(More(Token(Name, n), rest)) ==
            Ok(if n == "true" then Boolean(true) else if n == "false" then Boolean(false)
               else if n == "null" then Null else Enum(n), rest)
  {
  }

  lemma IntParses(n: int, rest: Input)
    requires Numerals.IsI64(n)
    ensures PlainValue(More(Token(IntValue, Numerals.IntText(n)), rest)) == Ok(Int(n), rest)
  {
    hide Numerals.IntText, Numerals.ParseI64;
    Numerals.IntTextRoundTrip(n);
  }

  lemma PlainParses(v: Value, indent: nat, step: nat, c: Chunks)
    requires WfValue(v, indent, false) && !v.List? && !v.Object?
    ensures PlainValue(TokensOf(ValueC(v, indent, step, c))) == Ok(v, TokensOf(c))
  {
    hide StringToken, Quotable, PlainValue;
    match v
    case Int(n) => IntParses(n, TokensOf(c));
    case String(s) => StringParses(s, indent, step, c);
    case Boolean(b) => NameParses(if b then "true" else "false", TokensOf(c));
    case Null => NameParses("null", TokensOf(c));
    case Enum(n) => NameParses(n, TokensOf(c));
  }

  lemma {:induction false} ValueParses(v: Value, indent: nat, step: nat, variables: bool, c: Chunks)
    requires WfValue(v, indent, variables)
    ensures AValue(TokensOf(ValueC(v, indent, step, c)), variables) == Ok(v, TokensOf(c))
    decreases v
  {
    hide StringToken, Quotable, AValue, Values, Members, PlainValue;
    match v
    case Variable(n) =>
      assert TokensOf(N(n, c)) == More(Token(Name, n), TokensOf(c));
      VariableIsValue(n, TokensOf(c));
    case List(items) =>
      var close := P("]", c);
      assert TokensOf(close) == More(Token(Punctuator, "]"), TokensOf(c));
      ValuesParse(items, indent, step, variables, close);
      ListIsValue(items, variables, TokensOf(ValuesC(items, indent, step, close)), TokensOf(c));
    case Object(fields) =>
      var close := P("}", c);
      assert TokensOf(close) == More(Token(Punctuator, "}"), TokensOf(c));
      MembersParse(fields, indent, step, variables, close);
      CollectOrdered(fields);
      ObjectIsValue(fields, variables, TokensOf(MembersC(fields, indent, step, close)), TokensOf(c));
    case _ =>
      PlainParses(v, indent, step, c);
      PlainIsValue(TokensOf(ValueC(v, indent, step, c)), variables);
  }

  lemma {:induction false} ValuesParse(vs: seq<Value>, indent: nat, step: nat, variables: bool, c: Chunks)
    requires WfValues(vs, indent, variables) && NextIsPunct(TokensOf(c), "]")
    ensures Values(TokensOf(ValuesC(vs, indent, step, c)), variables) == Ok(vs, TokensOf(c))
    decreases vs
  {
    hide AValue, ValueC;
    NoValueAtBracket(TokensOf(c), variables);
    if vs != [] {
      var later := if |vs| == 1 then c else G(", ", ValuesC(vs[1..], indent, step, c));
      ValuesParse(vs[1..], indent, step, variables, c);
      ValueParses(vs[0], indent, step, variables, later);
      assert TokensOf(later) == TokensOf(ValuesC(vs[1..], indent, step, c));
      assert vs == [vs[0]] + vs[1..];
    }
  }

  lemma {:induction false} MemberParses(m: Member, indent: nat, step: nat, variables: bool, c: Chunks)
    requires WfValue(m.value, indent, variables)
    ensures AMember(TokensOf(N(m.name, P(":", G(" ", ValueC(m.value, indent, step, c))))), variables) ==
            Ok(m, TokensOf(c))
    decreases m
  {
    var value := ValueC(m.value, indent, step, c);
    ValueParses(m.value, indent, step, variables, c);
    assert TokensOf(P(":", G(" ", value))) == More(Token(Punctuator, ":"), TokensOf(G(" ", value)));
    assert TokensOf(G(" ", value)) == TokensOf(value);
  }

  lemma OneMoreMember(i: Input, variables: bool, m: Member, r: Input, ms: seq<Member>, end: Input)
    requires AMember(i, variables) == Ok(m, r) && Members(r, variables) == Ok(ms, end)
    ensures Members(i, variables) == Ok([m] + ms, end)
  {
    hide AMember;
  }

  lemma {:induction false} MembersParse(ms: seq<Member>, indent: nat, step: nat, variables: bool, c: Chunks)
    requires WfMembers(ms, indent, variables)
    requires TokensOf(c).More? && TokensOf(c).tok.kind == Punctuator
    ensures Members(TokensOf(MembersC(ms, indent, step, c)), variables) == Ok(ms, TokensOf(c))
    decreases ms
  {
    if ms != [] {
      hide AMember, Members, ValueC, WfValue;
      var later := if |ms| == 1 then c else G(", ", MembersC(ms[1..], indent, step, c));
      MembersParse(ms[1..], indent, step, variables, c);
      MemberParses(ms[0], indent, step, variables, later);
      assert TokensOf(later) == TokensOf(MembersC(ms[1..], indent, step, c));
      OneMoreMember(TokensOf(MembersC(ms, indent, step, c)), variables, ms[0], TokensOf(later), ms[1..], TokensOf(c));
      assert ms == [ms[0]] + ms[1..];
    }
  }

  // ----- Arguments, directives, types, variables -----

  lemma ArgumentsParse(ms: seq<Member>, indent: nat, step: nat, c: Chunks)
    requires WfMembers(ms, indent, true) && !NextIsPunct(TokensOf(c), "(")
    ensures Arguments(TokensOf(ArgumentsC(ms, indent, step, c))) == Ok(ms, TokensOf(c))
  {
    hide AMember, Members, ValueC, WfValue;
    if ms != [] {
      var close := P(")", c);
      var later := if |ms| == 1 then close else G(", ", MembersC(ms[1..], indent, step, close));
      MemberParses(ms[0], indent, step, true, later);
      MembersParse(ms[1..], indent, step, true, close);
      assert ms == [ms[0]] + ms[1..];
    }
  }

  lemma {:induction false} DirectivesParse(ds: seq<Directive>, indent: nat, step: nat, c: Chunks)
    requires WfDirectives(ds, indent)
    requires !NextIsPunct(TokensOf(c), "(") && !NextIsPunct(TokensOf(c), "@")
    ensures Directives(TokensOf(DirectivesC(ds, indent, step, c))) == Ok(ds, TokensOf(c))
    ensures var i := TokensOf(DirectivesC(ds, indent, step, c));
            if ds == [] then i == TokensOf(c) else NextIsPunct(i, "@")
  {
    if ds != [] {
      var later := DirectivesC(ds[1..], indent, step, c);
      DirectivesParse(ds[1..], indent, step, c);
      ArgumentsParse(ds[0].arguments, indent, step, later);
      var arguments := ArgumentsC(ds[0].arguments, indent, step, later);
      assert TokensOf(P("@", N(ds[0].name, arguments))) ==
             More(Token(Punctuator, "@"), TokensOf(N(ds[0].name, arguments)));
      assert TokensOf(N(ds[0].name, arguments)) == More(Token(Name, ds[0].name), TokensOf(arguments));
      assert ds == [ds[0]] + ds[1..];
    }
  }

  /** A type without its own exclamation mark. */
  function BaseType(i: Input): Parse<Type> {
    Or(i, AName(i).Map(n => NamedType(n)), BracketedType(i))
  }

  lemma {:induction false} TypeParses(t: Type, c: Chunks)
    requires WfType(t)
    ensures !t.NonNullType? ==> BaseType(TokensOf(TypeC(t, c))) == Ok(t, TokensOf(c))
    ensures !NextIsPunct(TokensOf(c), "!") ==> AType(TokensOf(TypeC(t, c))) == Ok(t, TokensOf(c))
  {
    match t
    case NamedType(n) =>
    case ListType(inner) =>
      TypeParses(inner, P("]", c));
      assert TokensOf(P("]", c)) == More(Token(Punctuator, "]"), TokensOf(c));
    case NonNullType(inner) =>
      TypeParses(inner, P("!", c));
      assert TokensOf(P("!", c)) == More(Token(Punctuator, "!"), TokensOf(c));
  }

  lemma VariableParses(v: VariableDefinition, step: nat, c: Chunks)
    requires WfVariable(v)
    requires !NextIsPunct(TokensOf(c), "!") && !NextIsPunct(TokensOf(c), "=")
    ensures AVariableDefinition(TokensOf(VariableC(v, step, c))) == Ok(v, TokensOf(c))
  {
    hide AValue, ValueC, AType, TypeC, WfType, WfValue;
    var end := c;
    if v.defaultValue.Some? {
      var value := ValueC(v.defaultValue.value, 0, step, c);
      ValueParses(v.defaultValue.value, 0, step, false, c);
      assert TokensOf(G(" ", value)) == TokensOf(value);
      assert TokensOf(P("=", G(" ", value))) == More(Token(Punctuator, "="), TokensOf(value));
      end := G(" ", P("=", G(" ", value)));
    }
    TypeParses(v.varType, end);
    var typed := TypeC(v.varType, end);
    assert TokensOf(P(":", G(" ", typed))) == More(Token(Punctuator, ":"), TokensOf(G(" ", typed)));
    assert TokensOf(G(" ", typed)) == TokensOf(typed);
    assert TokensOf(N(v.name, P(":", G(" ", typed)))) == More(Token(Name, v.name), TokensOf(P(":", G(" ", typed))));
  }

  lemma OneMoreVariable(i: Input, v: VariableDefinition, r: Input, vs: seq<VariableDefinition>, end: Input)
    requires AVariableDefinition(i) == Ok(v, r) && VariableDefinitions(r) == Ok(vs, end)
    ensures VariableDefinitions(i) == Ok([v] + vs, end)
  {
    hide AVariableDefinition;
  }

  lemma StartsWithDollar(v: VariableDefinition, step: nat, c: Chunks)
    ensures NextIsPunct(TokensOf(VariableC(v, step, c)), "$")
  {
  }

  /** What follows the first of several variable definitions. */
  function AfterVariable(vs: seq<VariableDefinition>, step: nat, c: Chunks): Chunks
    requires vs != []
  {
    if |vs| == 1 then c else G(", ", VariablesC(vs[1..], step, c))
  }

  lemma VariablesInTurn(vs: seq<VariableDefinition>, step: nat, c: Chunks)
    requires vs != []
    ensures VariablesC(vs, step, c) == VariableC(vs[0], step, AfterVariable(vs, step, c))
    ensures TokensOf(AfterVariable(vs, step, c)) == TokensOf(VariablesC(vs[1..], step, c))
  {
    hide VariableC;
  }

  lemma {:induction false} VariablesParse(vs: seq<VariableDefinition>, step: nat, c: Chunks)
    requires WfVariables(vs) && NextIsPunct(TokensOf(c), ")")
    ensures VariableDefinitions(TokensOf(VariablesC(vs, step, c))) == Ok(vs, TokensOf(c))
    ensures vs != [] ==> NextIsPunct(TokensOf(VariablesC(vs, step, c)), "$")
  {
    if vs == [] {
      NoVariableAtEnd(TokensOf(c));
    } else {
      VariablesInTurn(vs, step, c);
      hide AVariableDefinition, VariableDefinitions, VariableC, VariablesC, WfVariable, AfterVariable, TokensOf;
      var later := AfterVariable(vs, step, c);
      VariablesParse(vs[1..], step, c);
      VariableParses(vs[0], step, later);
      StartsWithDollar(vs[0], step, later);
      OneMoreVariable(TokensOf(VariablesC(vs, step, c)), vs[0], TokensOf(later), vs[1..], TokensOf(c));
      assert vs == [vs[0]] + vs[1..];
    }
  }

  lemma NoVariableAtEnd(i: Input)
    requires NextIsPunct(i, ")")
    ensures VariableDefinitions(i) == Ok([], i)
  {
  }

  lemma ListOfVariables(i: Input, vs: seq<VariableDefinition>, end: Input)
    requires VariableDefinitions(i) == Ok(vs, end) && vs != [] && NextIsPunct(end, ")")
    ensures VariableList(More(Token(Punctuator, "("), i)) == Ok(vs, end.rest)
  {
    hide AVariableDefinition;
  }

  lemma VariableListParses(vs: seq<VariableDefinition>, step: nat, c: Chunks)
    requires WfVariables(vs) && vs != [] && NextIsPunct(TokensOf(c), ")")
    ensures VariableList(TokensOf(P("(", VariablesC(vs, step, c)))) == Ok(vs, TokensOf(c).rest)
  {
    hide VariableDefinitions, VariableList, VariablesC, WfVariables;
    VariablesParse(vs, step, c);
    assert TokensOf(P("(", VariablesC(vs, step, c))) ==
           More(Token(Punctuator, "("), TokensOf(VariablesC(vs, step, c)));
    ListOfVariables(TokensOf(VariablesC(vs, step, c)), vs, TokensOf(c));
  }

  // ----- Selections -----

  /** What may follow a selection inside a selection set: another one, or the closing brace. */
  predicate AfterSelection(i: Input) {
    i.More? && (i.tok.kind == Name || NextIsPunct(i, "...") || NextIsPunct(i, "}"))
  }

  lemma {:induction false} SelectionParses(s: Selection, indent: nat, step: nat, c: Chunks)
    requires WfSelection(s, indent, step) && AfterSelection(TokensOf(c))
    ensures ASelection(TokensOf(SelectionC(s, indent, step, c))) == Ok(s, TokensOf(c))
    ensures AfterSelection(TokensOf(SelectionC(s, indent, step, c)))
    decreases s, 0
  {
    match s
    case Field(_, _, _, _, _) => FieldParses(s, indent, step, c);
    case FragmentSpread(name, directives) =>
      var end := G("\n", c);
      DirectivesParse(directives, indent, step, end);
      var dirs := DirectivesC(directives, indent, step, end);
      var named := N(name, dirs);
      assert TokensOf(named) == More(Token(Name, name), TokensOf(dirs));
      assert TokensOf(P("...", named)) == More(Token(Punctuator, "..."), TokensOf(named));
      SpreadParses(name, directives, TokensOf(dirs), TokensOf(c));
    case InlineFragment(_, _, _) => InlineFragmentParses(s, indent, step, c);
  }

  lemma SpreadParses(name: string, directives: seq<Directive>, dirs: Input, rest: Input)
    requires name != "on" && Directives(dirs) == Ok(directives, rest)
    ensures AfterDots(More(Token(Punctuator, "..."), More(Token(Name, name), dirs))) ==
            Ok(FragmentSpread(name, directives), rest)
  {
    var i := More(Token(Name, name), dirs);
    assert Opt(i, Condition(i)) == Ok(None, i);
    assert Directives(i) == Ok([], i);
    assert AnInlineFragment(i) == Fail(i);
  }

  /** The parts of a field, one after the other. */
  lemma {:induction false} FieldOfParts(s: Selection, i: Input, rest: Input)
    requires s.Field?
    requires var Field(alias, name, arguments, directives, items) := s;
             && (if alias.Some? then
                   NextIs(i, Name, alias.value) && NextIsPunct(i.rest, ":") && NextIs(i.rest.rest, Name, name)
                 else NextIs(i, Name, name) && !NextIsPunct(i.rest, ":"))
             && var args := if alias.Some? then i.rest.rest.rest else i.rest;
             && Arguments(args).Ok? && Arguments(args).value == arguments
             && var dirs := Arguments(args).rest;
             && Directives(dirs).Ok? && Directives(dirs).value == directives
             && var end := Directives(dirs).rest;
             && (if items == [] then end == rest && !NextIsPunct(end, "{") else ASelectionSet(end) == Ok(items, rest))
    ensures ASelection(i) == Ok(s, rest)
  {
    hide Arguments, Directives, AfterDots;
    if s.alias.Some? {
      assert AliasedName(i.rest) == Ok(s.name, i.rest.rest.rest);
    } else {
      assert AliasedName(i.rest) == Fail(i.rest);
    }
    if s.selectionSet == [] {
      assert ASelectionSet(rest) == Fail(rest);
    }
  }

  lemma {:induction false} FieldParses(s: Selection, indent: nat, step: nat, c: Chunks)
    requires s.Field? && WfSelection(s, indent, step) && AfterSelection(TokensOf(c))
    ensures ASelection(TokensOf(SelectionC(s, indent, step, c))) == Ok(s, TokensOf(c))
    ensures AfterSelection(TokensOf(SelectionC(s, indent, step, c)))
    decreases s.selectionSet, 2
  {
    hide ASelectionSet, Arguments, Directives, ASelection, BlockC, ArgumentsC, DirectivesC;
    var Field(alias, name, arguments, directives, items) := s;
    var end := if items != [] then G(" ", BlockC(items, indent, step, c)) else G("\n", c);
    if items != [] {
      BlockParses(items, indent, step, c);
      assert TokensOf(end) == TokensOf(BlockC(items, indent, step, c));
    } else {
      assert TokensOf(end) == TokensOf(c);
    }
    DirectivesParse(directives, indent, step, end);
    var dirs := DirectivesC(directives, indent, step, end);
    ArgumentsParse(arguments, indent, step, dirs);
    var args := ArgumentsC(arguments, indent, step, dirs);
    NextAfterArguments(arguments, indent, step, dirs);
    var rest := N(name, args);
    assert TokensOf(rest) == More(Token(Name, name), TokensOf(args));
    var i := TokensOf(SelectionC(s, indent, step, c));
    if alias.Some? {
      assert TokensOf(G(" ", rest)) == TokensOf(rest);
      assert TokensOf(P(":", G(" ", rest))) == More(Token(Punctuator, ":"), TokensOf(rest));
      assert i == TokensOf(N(alias.value, P(":", G(" ", rest))));
    } else {
      assert i == TokensOf(rest);
    }
    FieldOfParts(s, i, TokensOf(c));
  }

  lemma NextAfterArguments(ms: seq<Member>, indent: nat, step: nat, c: Chunks)
    ensures var i := TokensOf(ArgumentsC(ms, indent, step, c));
            if ms == [] then i == TokensOf(c) else NextIsPunct(i, "(")
  {
  }

  lemma InlineFragmentOfParts(s: Selection, i: Input, rest: Input)
    requires s.InlineFragment? && NextIsPunct(i, "...")
    requires var InlineFragment(condition, directives, items) := s;
             && (if condition.Some? then NextIs(i.rest, Name, "on") && NextIs(i.rest.rest, Name, condition.value)
                 else !NextIs(i.rest, Name, "on"))
             && var dirs := if condition.Some? then i.rest.rest.rest else i.rest;
             && Directives(dirs).Ok? && Directives(dirs).value == directives
             && ASelectionSet(Directives(dirs).rest) == Ok(items, rest)
    ensures ASelection(i) == Ok(s, rest)
  {
    hide Directives, ASelectionSet;
    assert AField(i) == Fail(i);
    if s.typeCondition.Some? {
      assert Condition(i.rest) == Ok(s.typeCondition.value, i.rest.rest.rest);
    } else {
      assert Condition(i.rest) == Fail(i.rest);
    }
    assert AnInlineFragment(i.rest) == Ok(s, rest);
  }

  lemma {:induction false} InlineFragmentParses(s: Selection, indent: nat, step: nat, c: Chunks)
    requires s.InlineFragment? && WfSelection(s, indent, step)
    ensures ASelection(TokensOf(SelectionC(s, indent, step, c))) == Ok(s, TokensOf(c))
    ensures AfterSelection(TokensOf(SelectionC(s, indent, step, c)))
    decreases s.selectionSet, 2
  {
    hide ASelectionSet, Directives, ASelection, BlockC, DirectivesC;
    var InlineFragment(condition, directives, items) := s;
    var end := G(" ", BlockC(items, indent, step, c));
    BlockParses(items, indent, step, c);
    assert TokensOf(end) == TokensOf(BlockC(items, indent, step, c));
    DirectivesParse(directives, indent, step, end);
    var dirs := DirectivesC(directives, indent, step, end);
    var i := TokensOf(SelectionC(s, indent, step, c));
    if condition.Some? {
      var named := N(condition.value, dirs);
      assert TokensOf(G(" ", named)) == TokensOf(named) == More(Token(Name, condition.value), TokensOf(dirs));
      assert TokensOf(N("on", G(" ", named))) == More(Token(Name, "on"), TokensOf(named));
      assert TokensOf(G(" ", N("on", G(" ", named)))) == TokensOf(N("on", G(" ", named)));
      assert i == TokensOf(P("...", G(" ", N("on", G(" ", named)))));
    } else {
      assert i == TokensOf(P("...", dirs));
    }
    InlineFragmentOfParts(s, i, TokensOf(c));
  }

  lemma {:induction false} BlockParses(items: seq<Selection>, indent: nat, step: nat, c: Chunks)
    requires items != [] && WfSelections(items, indent + step, step)
    ensures ASelectionSet(TokensOf(BlockC(items, indent, step, c))) == Ok(items, TokensOf(c))
    ensures NextIsPunct(TokensOf(BlockC(items, indent, step, c)), "{")
    decreases items, 1
  {
    hide SelectionC, WfSelection, ASelection;
    var n := indent + step;
    var close := P("}", G("\n", c));
    var end := G(BlockStrings.Spaces(indent), close);
    assert TokensOf(end) == TokensOf(close) == More(Token(Punctuator, "}"), TokensOf(G("\n", c)));
    assert TokensOf(G("\n", c)) == TokensOf(c);
    SelectionsParse(items[1..], n, step, end);
    SelectionParses(items[0], n, step, SelectionsC(items[1..], n, step, end));
    assert items == [items[0]] + items[1..];
    var inner := SelectionsC(items, n, step, end);
    assert TokensOf(G("\n", inner)) == TokensOf(inner);
    assert TokensOf(BlockC(items, indent, step, c)) == More(Token(Punctuator, "{"), TokensOf(inner));
  }

  lemma NoSelectionAtBrace(i: Input)
    requires NextIsPunct(i, "}")
    ensures ASelection(i) == Fail(i)
  {
  }

  lemma {:induction false} SelectionsParse(ss: seq<Selection>, indent: nat, step: nat, c: Chunks)
    requires WfSelections(ss, indent, step) && NextIsPunct(TokensOf(c), "}")
    ensures Selections(TokensOf(SelectionsC(ss, indent, step, c))) == Ok(ss, TokensOf(c))
    ensures AfterSelection(TokensOf(SelectionsC(ss, indent, step, c)))
    decreases ss, 0
  {
    hide ASelection, SelectionC;
    NoSelectionAtBrace(TokensOf(c));
    if ss != [] {
      var later := SelectionsC(ss[1..], indent, step, c);
      SelectionsParse(ss[1..], indent, step, c);
      SelectionParses(ss[0], indent, step, later);
      assert ss == [ss[0]] + ss[1..];
    }
  }
}
