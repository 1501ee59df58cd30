/**
 The grammar of query documents as the forms a document can be written in: which tokens a form has, in
 front of the tokens `r` that follow it, and which syntax tree it means.

 Parts that may be missing are absent where their sequence is empty.  The productions are those of
 section 2 of the GraphQL specification; where the parser departs from them, the forms do so too: a fragment
 may be called `on`, variables and defaults have no directives, and shorthand sets may stand beside operations.
 */
module Forms {
  import opened Wrappers
  import opened Lexer
  import opened Ast
  import Numerals
  import QuotedStrings
  import BlockStrings

  datatype ValueForm =
    | VariableForm(name: string)
    | IntForm(text: string)
    | FloatForm(text: string)
    | QuotedForm(text: string)
    | BlockForm(text: string)
    | WordForm(word: string)
    | ListForm(items: seq<ValueForm>)
    | ObjectForm(members: seq<MemberForm>)

  datatype MemberForm = MemberForm(name: string, value: ValueForm)

  datatype DirectiveForm = DirectiveForm(name: string, arguments: seq<MemberForm>)

  datatype DefinedVariable = DefinedVariable(name: string, varType: Type, default: Option<ValueForm>)

  datatype SelectionForm =
    | FieldForm(alias: Option<string>, name: string, arguments: seq<MemberForm>, directives: seq<DirectiveForm>,
                items: seq<SelectionForm>)
    | SpreadForm(fragmentName: string, directives: seq<DirectiveForm>)
    | InlineForm(condition: Option<string>, directives: seq<DirectiveForm>, items: seq<SelectionForm>)

  datatype DefinitionForm =
    | SetForm(items: seq<SelectionForm>)
    | OperationForm(kind: OperationType, opName: Option<string>, variables: seq<DefinedVariable>,
                    directives: seq<DirectiveForm>, items: seq<SelectionForm>)
    | FragmentForm(name: string, typeCondition: string, directives: seq<DirectiveForm>, items: seq<SelectionForm>)

  // ----- Tokens -----

  function Sym(v: string, r: Input): Input { More(Token(Punctuator, v), r) }

  function Word(n: string, r: Input): Input { More(Token(Name, n), r) }

  function ValueT(f: ValueForm, r: Input): Input
    decreases f
  {
    match f
    case VariableForm(n) => Sym("$", Word(n, r))
    case IntForm(text) => More(Token(IntValue, text), r)
    case FloatForm(text) => More(Token(FloatValue, text), r)
    case QuotedForm(text) => More(Token(StringValue, text), r)
    case BlockForm(text) => More(Token(BlockString, text), r)
    case WordForm(w) => Word(w, r)
    case ListForm(items) => Sym("[", ValuesT(items, Sym("]", r)))
    case ObjectForm(members) => Sym("{", MembersT(members, Sym("}", r)))
  }

  function ValuesT(fs: seq<ValueForm>, r: Input): Input
    decreases fs
  {
    if fs == [] then r else ValueT(fs[0], ValuesT(fs[1..], r))
  }

  function MembersT(ms: seq<MemberForm>, r: Input): Input
    decreases ms
  {
    if ms == [] then r else Word(ms[0].name, Sym(":", ValueT(ms[0].value, MembersT(ms[1..], r))))
  }

  function ArgumentsT(ms: seq<MemberForm>, r: Input): Input {
    if ms == [] then r else Sym("(", MembersT(ms, Sym(")", r)))
  }

  function DirectivesT(ds: seq<DirectiveForm>, r: Input): Input {
    if ds == [] then r else Sym("@", Word(ds[0].name, ArgumentsT(ds[0].arguments, DirectivesT(ds[1..], r))))
  }

  function TypeT(t: Type, r: Input): Input {
    match t
    case NamedType(n) => Word(n, r)
    case ListType(inner) => Sym("[", TypeT(inner, Sym("]", r)))
    case NonNullType(inner) => TypeT(inner, Sym("!", r))
  }

  function VariablesT(vs: seq<DefinedVariable>, r: Input): Input {
    if vs == [] then r else VariableT(vs[0], VariablesT(vs[1..], r))
  }

  function VariableT(v: DefinedVariable, r: Input): Input {
    Sym("$", Word(v.name, Sym(":", TypeT(v.varType, DefaultT(v.default, r)))))
  }

  function DefaultT(default: Option<ValueForm>, r: Input): Input {
    if default.Some? then Sym("=", ValueT(default.value, r)) else r
  }

  function SelectionT(s: SelectionForm, r: Input): Input
    decreases s
  {
    match s
    case FieldForm(alias, name, arguments, directives, items) =>
      var named := Word(name, ArgumentsT(arguments, DirectivesT(directives,
        if items == [] then r else Sym("{", SelectionsT(items, Sym("}", r))))));
      if alias.Some? then Word(alias.value, Sym(":", named)) else named
    case SpreadForm(name, directives) => Sym("...", Word(name, DirectivesT(directives, r)))
    case InlineForm(condition, directives, items) =>
      var rest := DirectivesT(directives, Sym("{", SelectionsT(items, Sym("}", r))));
      Sym("...", if condition.Some? then Word("on", Word(condition.value, rest)) else rest)
  }

  function SelectionsT(ss: seq<SelectionForm>, r: Input): Input
    decreases ss
  {
    if ss == [] then r else SelectionT(ss[0], SelectionsT(ss[1..], r))
  }

  function SetT(ss: seq<SelectionForm>, r: Input): Input {
    Sym("{", SelectionsT(ss, Sym("}", r)))
  }

  function DefinitionT(d: DefinitionForm, r: Input): Input {
    match d
    case SetForm(items) => SetT(items, r)
    case OperationForm(kind, name, variables, directives, items) =>
      var rest := DirectivesT(directives, SetT(items, r));
      var typed := if variables == [] then rest else Sym("(", VariablesT(variables, Sym(")", rest)));
      Word(match kind case Query => "query" case Mutation => "mutation" case Subscription => "subscription",
           if name.Some? then Word(name.value, typed) else typed)
    case FragmentForm(name, condition, directives, items) =>
      Word("fragment", Word(name, Word("on", Word(condition, DirectivesT(directives, SetT(items, r))))))
  }

  function DocumentT(ds: seq<DefinitionForm>): Input {
    if ds == [] then End(EndOfInput) else DefinitionT(ds[0], DocumentT(ds[1..]))
  }

  // ----- Forms that may be written -----

  /** Variables only where they are allowed. Integers are limited to 64 bits, and strings can have bad escapes. */
  predicate IsValue(f: ValueForm, variables: bool)
    decreases f
  {
    match f
    case VariableForm(_) => variables
    case IntForm(text) => Numerals.ParseI64(text).Some?
    case FloatForm(text) => IsFloatText(text)
    case QuotedForm(text) => |text| >= 2 && QuotedStrings.UnquoteBody(text[1..|text| - 1]).Success?
    case BlockForm(text) => |text| >= 6
    case WordForm(_) => true
    case ListForm(items) => AreValues(items, variables)
    case ObjectForm(members) => AreMembers(members, variables)
  }

  predicate AreValues(fs: seq<ValueForm>, variables: bool)
    decreases fs
  {
    fs == [] || (IsValue(fs[0], variables) && AreValues(fs[1..], variables))
  }

  predicate AreMembers(ms: seq<MemberForm>, variables: bool)
    decreases ms
  {
    ms == [] || (IsValue(ms[0].value, variables) && AreMembers(ms[1..], variables))
  }

  predicate AreDirectives(ds: seq<DirectiveForm>) {
    ds == [] || (AreMembers(ds[0].arguments, true) && AreDirectives(ds[1..]))
  }

  predicate IsType(t: Type) {
    match t
    case NamedType(_) => true
    case ListType(inner) => IsType(inner)
    case NonNullType(inner) => !inner.NonNullType? && IsType(inner)
  }

  predicate AreVariables(vs: seq<DefinedVariable>) {
    vs == [] || (IsVariable(vs[0]) && AreVariables(vs[1..]))
  }

  /** The default value is constant. */
  predicate IsVariable(v: DefinedVariable) {
    IsType(v.varType) && (v.default.Some? ==> IsValue(v.default.value, false))
  }

  /** A set of braces is never empty, and no spread fragment is called `on`. */
  predicate IsSelection(s: SelectionForm)
    decreases s
  {
    match s
    case FieldForm(_, _, arguments, directives, items) =>
      AreMembers(arguments, true) && AreDirectives(directives) && AreSelections(items)
    case SpreadForm(name, directives) => name != "on" && AreDirectives(directives)
    case InlineForm(_, directives, items) => AreDirectives(directives) && items != [] && AreSelections(items)
  }

  predicate AreSelections(ss: seq<SelectionForm>)
    decreases ss
  {
    ss == [] || (IsSelection(ss[0]) && AreSelections(ss[1..]))
  }

  predicate IsDefinition(d: DefinitionForm) {
    && d.items != []
    && AreSelections(d.items)
    && (!d.SetForm? ==> AreDirectives(d.directives))
    && (d.OperationForm? ==> AreVariables(d.variables))
  }

  predicate AreDefinitions(ds: seq<DefinitionForm>) {
    ds == [] || (IsDefinition(ds[0]) && AreDefinitions(ds[1..]))
  }

  // ----- What the forms mean -----

  /** An object keeps one member for each name, the last one, in the order of names. */
  function ValueOf(f: ValueForm, variables: bool): Value
    requires IsValue(f, variables)
    decreases f
  {
    match f
    case VariableForm(n) => Variable(n)
    case IntForm(text) => Int(Numerals.ParseI64(text).value)
    case FloatForm(text) => Float(text)
    case QuotedForm(text) => String(QuotedStrings.UnquoteBody(text[1..|text| - 1]).value)
    case BlockForm(text) => String(BlockStrings.BlockValue(text[3..|text| - 3]))
    case WordForm(w) =>
      if w == "true" then Boolean(true) else if w == "false" then Boolean(false) else if w == "null" then Null
      else Enum(w)
    case ListForm(items) => List(ValuesOf(items, variables))
    case ObjectForm(members) => Object(Collect(MembersOf(members, variables)))
  }

  function ValuesOf(fs: seq<ValueForm>, variables: bool): seq<Value>
    requires AreValues(fs, variables)
    decreases fs
  {
    if fs == [] then [] else [ValueOf(fs[0], variables)] + ValuesOf(fs[1..], variables)
  }

  function MembersOf(ms: seq<MemberForm>, variables: bool): seq<Member>
    requires AreMembers(ms, variables)
    decreases ms
  {
    if ms == [] then [] else [Member(ms[0].name, ValueOf(ms[0].value, variables))] + MembersOf(ms[1..], variables)
  }

  function DirectivesOf(ds: seq<DirectiveForm>): seq<Directive>
    requires AreDirectives(ds)
  {
    if ds == [] then [] else [Directive(ds[0].name, MembersOf(ds[0].arguments, true))] + DirectivesOf(ds[1..])
  }

  function VariableOf(v: DefinedVariable): VariableDefinition
    requires IsVariable(v)
  {
    VariableDefinition(v.name, v.varType, if v.default.Some? then Some(ValueOf(v.default.value, false)) else None)
  }

  function VariablesOf(vs: seq<DefinedVariable>): seq<VariableDefinition>
    requires AreVariables(vs)
  {
    if vs == [] then [] else [VariableOf(vs[0])] + VariablesOf(vs[1..])
  }

  function SelectionOf(s: SelectionForm): Selection
    requires IsSelection(s)
    decreases s
  {
    match s
    case FieldForm(alias, name, arguments, directives, items) =>
      Field(alias, name, MembersOf(arguments, true), DirectivesOf(directives), SelectionsOf(items))
    case SpreadForm(name, directives) => FragmentSpread(name, DirectivesOf(directives))
    case InlineForm(condition, directives, items) =>
      InlineFragment(condition, DirectivesOf(directives), SelectionsOf(items))
  }

  function SelectionsOf(ss: seq<SelectionForm>): seq<Selection>
    requires AreSelections(ss)
    decreases ss
  {
    if ss == [] then [] else [SelectionOf(ss[0])] + SelectionsOf(ss[1..])
  }

  function DefinitionOf(d: DefinitionForm): Definition
    requires IsDefinition(d)
  {
    match d
    case SetForm(items) => SelectionSet(SelectionsOf(items))
    case OperationForm(kind, name, variables, directives, items) =>
      Operation(kind, name, VariablesOf(variables), DirectivesOf(directives), SelectionsOf(items))
    case FragmentForm(name, condition, directives, items) =>
      Fragment(name, condition, DirectivesOf(directives), SelectionsOf(items))
  }

  function DefinitionsOf(ds: seq<DefinitionForm>): seq<Definition>
    requires AreDefinitions(ds)
  {
    if ds == [] then [] else [DefinitionOf(ds[0])] + DefinitionsOf(ds[1..])
  }
}
