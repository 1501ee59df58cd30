/**
 The query grammar of crates/parser/src/query/grammar.rs and crates/parser/src/common.rs.

 A parser maps the remaining tokens to a value and the tokens after it, or fails at the
 token it could not use.  As in the combinator library, an alternative is tried only when
 the one before it failed without using up a token, that is, at its own first token.

 Every parser only moves forward, and uses up at least one token when it succeeds, except
 for those of sequences that may be empty; their contracts say so, and repetition ends
 because of it.  The end of the tokens carries the error of the tokenizer, if there was one,
 and no parser loses it.
 */
module Grammar {
  import opened Wrappers
  import opened Lexer
  import opened Ast
  import Numerals
  import QuotedStrings
  import BlockStrings

  datatype Parse<+T> = Ok(value: T, rest: Input) | Fail(at: Input) {
    predicate IsFailure() {
      Fail?
    }

    function PropagateFailure<U>(): Parse<U>
      requires Fail?
    {
      Fail(at)
    }

    function Extract(): (T, Input)
      requires Ok?
    {
      (value, rest)
    }

    function As<U>(u: U): Parse<U> {
      if Ok? then Ok(u, rest) else Fail(at)
    }

    function Map<U>(f: T -> U): Parse<U> {
      if Ok? then Ok(f(value), rest) else Fail(at)
    }

    /** The parser only moved forward, and used up tokens if it succeeded. */
    predicate From(i: Input) {
      FromOrSame(i) && (Ok? ==> Size(rest) < Size(i))
    }

    predicate FromOrSame(i: Input) {
      if Ok? then Size(rest) <= Size(i) && Ending(rest) == Ending(i) else Size(at) <= Size(i)
    }
  }

  function Size(i: Input): nat {
    match i
    case End(_) => 0
    case More(_, r) => 1 + Size(r)
  }

  function Or<T>(i: Input, p: Parse<T>, q: Parse<T>): Parse<T> {
    if p.Fail? && p.at == i then q else p
  }

  function Opt<T>(i: Input, p: Parse<T>): Parse<Option<T>> {
    if p.Ok? then Ok(Some(p.value), p.rest)
    else if p.at == i then Ok(None, i)
    else Fail(p.at)
  }

  // ----- Single tokens -----

  function OfKind(i: Input, kind: Kind): (p: Parse<string>)
    ensures p.From(i)
  {
    if i.More? && i.tok.kind == kind then Ok(i.tok.value, i.rest) else Fail(i)
  }

  function AName(i: Input): (p: Parse<string>)
    ensures p.From(i)
  {
    OfKind(i, Name)
  }

  function Exactly(i: Input, kind: Kind, value: string): (p: Parse<()>)
    ensures p.From(i)
  {
    if i.More? && i.tok.kind == kind && i.tok.value == value then Ok((), i.rest) else Fail(i)
  }

  function Punct(i: Input, value: string): (p: Parse<()>)
    ensures p.From(i)
  {
    Exactly(i, Punctuator, value)
  }

  function Ident(i: Input, value: string): (p: Parse<()>)
    ensures p.From(i)
  {
    Exactly(i, Name, value)
  }

  // ----- Values -----

  function IntLiteral(i: Input): (p: Parse<Value>)
    ensures p.From(i)
  {
    var (text, r) :- OfKind(i, IntValue);
    match Numerals.ParseI64(text)
    case None => Fail(r)
    case Some(n) => Ok(Int(n), r)
  }

  function FloatLiteral(i: Input): (p: Parse<Value>)
    ensures p.From(i)
  {
    var (text, r) :- OfKind(i, FloatValue);
    if IsFloatText(text) then Ok(Float(text), r) else Fail(r)
  }

  function StringLiteral(i: Input): (p: Parse<Value>)
    ensures p.From(i)
  {
    var (text, r) :- OfKind(i, StringValue);
    if |text| < 2 then Fail(r)
    else
      match QuotedStrings.UnquoteBody(text[1..|text| - 1])
      case Failure(_) => Fail(r)
      case Success(s) => Ok(String(s), r)
  }

  function BlockStringLiteral(i: Input): (p: Parse<Value>)
    ensures p.From(i)
  {
    var (text, r) :- OfKind(i, BlockString);
    if |text| < 6 then Fail(r) else Ok(String(BlockStrings.BlockValue(text[3..|text| - 3])), r)
  }

  function PlainValue(i: Input): (p: Parse<Value>)
    ensures p.From(i)
  {
    Or(i, Ident(i, "true").As(Boolean(true)),
       Or(i, Ident(i, "false").As(Boolean(false)),
          Or(i, Ident(i, "null").As(Null),
             Or(i, AName(i).Map(n => Enum(n)),
                Or(i, IntLiteral(i),
                   Or(i, FloatLiteral(i),
                      Or(i, StringLiteral(i), BlockStringLiteral(i))))))))
  }

  function VariableUse(i: Input): (p: Parse<Value>)
    ensures p.From(i)
  {
    var (_, r) :- Punct(i, "$");
    var (n, r') :- AName(r);
    Ok(Variable(n), r')
  }

  /** A value; variables only where they are allowed, which is not in default values. */
  function AValue(i: Input, variables: bool): (p: Parse<Value>)
    ensures p.From(i)
    decreases Size(i), 1
  {
    Or(i, PlainValue(i),
       Or(i, if variables then VariableUse(i) else Fail(i),
          Or(i, ListLiteral(i, variables), ObjectLiteral(i, variables))))
  }

  function ListLiteral(i: Input, variables: bool): (p: Parse<Value>)
    ensures p.From(i)
    decreases Size(i), 0
  {
    var (_, r) :- Punct(i, "[");
    var (items, r') :- Values(r, variables);
    var (_, r'') :- Punct(r', "]");
    Ok(List(items), r'')
  }

  function ObjectLiteral(i: Input, variables: bool): (p: Parse<Value>)
    ensures p.From(i)
    decreases Size(i), 0
  {
    var (_, r) :- Punct(i, "{");
    var (members, r') :- Members(r, variables);
    var (_, r'') :- Punct(r', "}");
    Ok(Object(Collect(members)), r'')
  }

  function Values(i: Input, variables: bool): (p: Parse<seq<Value>>)
    ensures p.FromOrSame(i)
    decreases Size(i), 2
  {
    match AValue(i, variables)
    case Fail(at) => if at == i then Ok([], i) else Fail(at)
    case Ok(v, r) =>
      var (vs, r') :- Values(r, variables);
      Ok([v] + vs, r')
  }

  function AMember(i: Input, variables: bool): (p: Parse<Member>)
    ensures p.From(i)
    decreases Size(i), 0
  {
    var (n, r) :- AName(i);
    var (_, r') :- Punct(r, ":");
    var (v, r'') :- AValue(r', variables);
    Ok(Member(n, v), r'')
  }

  function Members(i: Input, variables: bool): (p: Parse<seq<Member>>)
    ensures p.FromOrSame(i)
    decreases Size(i), 2
  {
    match AMember(i, variables)
    case Fail(at) => if at == i then Ok([], i) else Fail(at)
    case Ok(m, r) =>
      var (ms, r') :- Members(r, variables);
      Ok([m] + ms, r')
  }

  // ----- Arguments, directives, types -----

  function ArgumentList(i: Input): (p: Parse<seq<Member>>)
    ensures p.From(i)
  {
    var (_, r) :- Punct(i, "(");
    var (m, r') :- AMember(r, true);
    var (ms, r'') :- Members(r', true);
    var (_, r3) :- Punct(r'', ")");
    Ok([m] + ms, r3)
  }

  function Arguments(i: Input): (p: Parse<seq<Member>>)
    ensures p.FromOrSame(i)
  {
    Opt(i, ArgumentList(i)).Map((o: Option<seq<Member>>) => if o.Some? then o.value else [])
  }

  function ADirective(i: Input): (p: Parse<Directive>)
    ensures p.From(i)
  {
    var (_, r) :- Punct(i, "@");
    var (n, r') :- AName(r);
    var (arguments, r'') :- Arguments(r');
    Ok(Directive(n, arguments), r'')
  }

  function Directives(i: Input): (p: Parse<seq<Directive>>)
    ensures p.FromOrSame(i)
    decreases Size(i)
  {
    match ADirective(i)
    case Fail(at) => if at == i then Ok([], i) else Fail(at)
    case Ok(d, r) =>
      var (ds, r') :- Directives(r);
      Ok([d] + ds, r')
  }

  function AType(i: Input): (p: Parse<Type>)
    ensures p.From(i)
    decreases Size(i), 1
  {
    var (t, r) :- Or(i, AName(i).Map(n => NamedType(n)), BracketedType(i));
    var (strict, r') :- Opt(r, Punct(r, "!"));
    Ok(if strict.Some? then NonNullType(t) else t, r')
  }

  function BracketedType(i: Input): (p: Parse<Type>)
    ensures p.From(i)
    decreases Size(i), 0
  {
    var (_, r) :- Punct(i, "[");
    var (t, r') :- AType(r);
    var (_, r'') :- Punct(r', "]");
    Ok(ListType(t), r'')
  }

  // ----- Selections -----

  function AliasedName(i: Input): (p: Parse<string>)
    ensures p.From(i)
  {
    var (_, r) :- Punct(i, ":");
    AName(r)
  }

  function AField(i: Input): (p: Parse<Selection>)
    ensures p.From(i)
    decreases Size(i), 0
  {
    hide Arguments, Directives;
    var (nameOrAlias, r) :- AName(i);
    var (optName, r1) :- Opt(r, AliasedName(r));
    var (arguments, r2) :- Arguments(r1);
    var (directives, r3) :- Directives(r2);
    var (sel, r4) :- Opt(r3, ASelectionSet(r3));
    Ok(Field(
      if optName.Some? then Some(nameOrAlias) else None,
      if optName.Some? then optName.value else nameOrAlias,
      arguments, directives,
      if sel.Some? then sel.value else []), r4)
  }

  function ASelection(i: Input): (p: Parse<Selection>)
    ensures p.From(i)
    decreases Size(i), 1
  {
    Or(i, AField(i), AfterDots(i))
  }

  function AfterDots(i: Input): (p: Parse<Selection>)
    ensures p.From(i)
    decreases Size(i), 0
  {
    var (_, r) :- Punct(i, "...");
    Or(r, AnInlineFragment(r), ASpread(r))
  }

  function Condition(i: Input): (p: Parse<string>)
    ensures p.From(i)
  {
    var (_, r) :- Ident(i, "on");
    AName(r)
  }

  function AnInlineFragment(i: Input): (p: Parse<Selection>)
    ensures p.From(i)
    decreases Size(i), 1
  {
    var (condition, r) :- Opt(i, Condition(i));
    var (directives, r1) :- Directives(r);
    var (items, r2) :- ASelectionSet(r1);
    Ok(InlineFragment(condition, directives, items), r2)
  }

  function ASpread(i: Input): (p: Parse<Selection>)
    ensures p.From(i)
  {
    var (n, r) :- AName(i);
    var (directives, r1) :- Directives(r);
    Ok(FragmentSpread(n, directives), r1)
  }

  function ASelectionSet(i: Input): (p: Parse<seq<Selection>>)
    ensures p.From(i)
    decreases Size(i), 0
  {
    var (_, r) :- Punct(i, "{");
    var (s, r1) :- ASelection(r);
    var (ss, r2) :- Selections(r1);
    var (_, r3) :- Punct(r2, "}");
    Ok([s] + ss, r3)
  }

  function Selections(i: Input): (p: Parse<seq<Selection>>)
    ensures p.FromOrSame(i)
    decreases Size(i), 2
  {
    match ASelection(i)
    case Fail(at) => if at == i then Ok([], i) else Fail(at)
    case Ok(s, r) =>
      var (ss, r') :- Selections(r);
      Ok([s] + ss, r')
  }

  // ----- Definitions -----

  function DefaultValue(i: Input): (p: Parse<Value>)
    ensures p.From(i)
  {
    var (_, r) :- Punct(i, "=");
    AValue(r, false)
  }

  function AVariableDefinition(i: Input): (p: Parse<VariableDefinition>)
    ensures p.From(i)
  {
    var (_, r) :- Punct(i, "$");
    var (n, r1) :- AName(r);
    var (typed, r2) :- TypeAndDefault(r1);
    Ok(VariableDefinition(n, typed.0, typed.1), r2)
  }

  function TypeAndDefault(i: Input): (p: Parse<(Type, Option<Value>)>)
    ensures p.From(i)
  {
    hide AValue, AType;
    var (_, r) :- Punct(i, ":");
    var (t, r1) :- AType(r);
    var (default, r2) :- Opt(r1, DefaultValue(r1));
    Ok((t, default), r2)
  }

  function VariableDefinitions(i: Input): (p: Parse<seq<VariableDefinition>>)
    ensures p.FromOrSame(i)
    decreases Size(i)
  {
    match AVariableDefinition(i)
    case Fail(at) => if at == i then Ok([], i) else Fail(at)
    case Ok(v, r) =>
      var (vs, r') :- VariableDefinitions(r);
      Ok([v] + vs, r')
  }

  function VariableList(i: Input): (p: Parse<seq<VariableDefinition>>)
    ensures p.From(i)
  {
    var (_, r) :- Punct(i, "(");
    var (v, r1) :- AVariableDefinition(r);
    var (vs, r2) :- VariableDefinitions(r1);
    var (_, r3) :- Punct(r2, ")");
    Ok([v] + vs, r3)
  }

  function AnOperation(i: Input, kind: OperationType): (p: Parse<Definition>)
    ensures p.From(i)
  {
    hide VariableList, Directives, ASelectionSet;
    var (_, r) :- Ident(i, Keyword(kind));
    var named := AName(r);
    var (name, r1) := if named.Ok? then (Some(named.value), named.rest) else (None, r);
    var (variables, r2) :- Opt(r1, VariableList(r1));
    var (directives, r3) :- Directives(r2);
    var (items, r4) :- ASelectionSet(r3);
    Ok(Operation(kind, name, if variables.Some? then variables.value else [], directives, items), r4)
  }

  function AnOperationDefinition(i: Input): (p: Parse<Definition>)
    ensures p.From(i)
  {
    Or(i, ASelectionSet(i).Map(items => SelectionSet(items)),
       Or(i, AnOperation(i, Query),
          Or(i, AnOperation(i, Mutation), AnOperation(i, Subscription))))
  }

  function AFragmentDefinition(i: Input): (p: Parse<Definition>)
    ensures p.From(i)
  {
    var (_, r) :- Ident(i, "fragment");
    var (n, r1) :- AName(r);
    var (condition, r2) :- Condition(r1);
    var (directives, r3) :- Directives(r2);
    var (items, r4) :- ASelectionSet(r3);
    Ok(Fragment(n, condition, directives, items), r4)
  }

  function ADefinition(i: Input): (p: Parse<Definition>)
    ensures p.From(i)
  {
    Or(i, AnOperationDefinition(i), AFragmentDefinition(i))
  }

  function Definitions(i: Input): (p: Parse<seq<Definition>>)
    ensures p.FromOrSame(i)
    decreases Size(i)
  {
    match ADefinition(i)
    case Fail(at) => if at == i then Ok([], i) else Fail(at)
    case Ok(d, r) =>
      var (ds, r') :- Definitions(r);
      Ok([d] + ds, r')
  }

  /** One or more definitions, then the end of the text: not an error of the tokenizer. */
  function ParseTokens(i: Input): (r: Option<Document>)
    ensures r.Some? ==> Ending(i) == EndOfInput
  {
    match ADefinition(i)
    case Fail(_) => None
    case Ok(d, r) =>
      match Definitions(r)
      case Fail(_) => None
      case Ok(ds, r') => if r' == End(EndOfInput) then Some(Document([d] + ds)) else None
  }

  const RECURSION_LIMIT: nat := 50

  function ParseQuery(text: string): Option<Document> {
    ParseTokens(Scan(text, RECURSION_LIMIT))
  }
}
