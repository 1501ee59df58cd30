/** Every form that may be written is parsed to the syntax tree it means, and what follows it is left. */
module FormsParse {
  import opened Wrappers
  import opened Lexer
  import opened Ast
  import opened Grammar
  import opened LayoutParses
  import opened Forms
  import RoundTrip
  import Numerals
  import QuotedStrings
  import BlockStrings

  // ----- Values -----

  lemma WordFormParses(f: ValueForm, variables: bool, r: Input)
    requires f.WordForm? && IsValue(f, variables)
    ensures PlainValue(ValueT(f, r)) == Ok(ValueOf(f, variables), r)
  {
    NameParses(f.word, r);
    hide PlainValue;
  }

  lemma IntFormParses(f: ValueForm, variables: bool, r: Input)
    requires f.IntForm? && IsValue(f, variables)
    ensures PlainValue(ValueT(f, r)) == Ok(ValueOf(f, variables), r)
  {
    hide Numerals.ParseI64;
  }

  lemma FloatFormParses(f: ValueForm, variables: bool, r: Input)
    requires f.FloatForm? && IsValue(f, variables)
    ensures PlainValue(ValueT(f, r)) == Ok(ValueOf(f, variables), r)
  {
    hide IsFloatText;
  }

  lemma QuotedFormParses(f: ValueForm, variables: bool, r: Input)
    requires f.QuotedForm? && IsValue(f, variables)
    ensures PlainValue(ValueT(f, r)) == Ok(ValueOf(f, variables), r)
  {
    hide QuotedStrings.UnquoteBody;
  }

  lemma BlockFormParses(f: ValueForm, variables: bool, r: Input)
    requires f.BlockForm? && IsValue(f, variables)
    ensures PlainValue(ValueT(f, r)) == Ok(ValueOf(f, variables), r)
  {
    hide BlockStrings.BlockValue;
  }

  lemma PlainFormParses(f: ValueForm, variables: bool, r: Input)
    requires IsValue(f, variables) && !f.VariableForm? && !f.ListForm? && !f.ObjectForm?
    ensures PlainValue(ValueT(f, r)) == Ok(ValueOf(f, variables), r)
  {
    hide PlainValue, ValueT, ValueOf, IsValue;
    match f
    case WordForm(_) => WordFormParses(f, variables, r);
    case IntForm(_) => IntFormParses(f, variables, r);
    case FloatForm(_) => FloatFormParses(f, variables, r);
    case QuotedForm(_) => QuotedFormParses(f, variables, r);
    case BlockForm(_) => BlockFormParses(f, variables, r);
  }

  lemma {:induction false} ValueFormParses(f: ValueForm, variables: bool, r: Input)
    requires IsValue(f, variables)
    ensures AValue(ValueT(f, r), variables) == Ok(ValueOf(f, variables), r)
    decreases f
  {
    hide AValue, PlainValue, Values, Members;
    match f
    case VariableForm(n) => VariableIsValue(n, r);
    case ListForm(items) =>
      var end := Sym("]", r);
      ValueFormsParse(items, variables, end);
      ListIsValue(ValuesOf(items, variables), variables, ValuesT(items, end), r);
    case ObjectForm(members) =>
      var end := Sym("}", r);
      MemberFormsParse(members, variables, end);
      ObjectIsValue(MembersOf(members, variables), variables, MembersT(members, end), r);
    case _ =>
      PlainFormParses(f, variables, r);
      PlainIsValue(ValueT(f, r), variables);
  }

  lemma {:induction false} ValueFormsParse(fs: seq<ValueForm>, variables: bool, r: Input)
    requires AreValues(fs, variables) && NextIsPunct(r, "]")
    ensures Values(ValuesT(fs, r), variables) == Ok(ValuesOf(fs, variables), r)
    decreases fs
  {
    hide AValue, ValueT, ValueOf, IsValue;
    NoValueAtBracket(r, variables);
    if fs != [] {
      ValueFormsParse(fs[1..], variables, r);
      ValueFormParses(fs[0], variables, ValuesT(fs[1..], r));
    }
  }

  lemma {:induction false} MemberFormsParse(ms: seq<MemberForm>, variables: bool, r: Input)
    requires AreMembers(ms, variables) && r.More? && r.tok.kind == Punctuator
    ensures Members(MembersT(ms, r), variables) == Ok(MembersOf(ms, variables), r)
    decreases ms
  {
    hide AValue, ValueT, ValueOf, IsValue;
    if ms != [] {
      MemberFormsParse(ms[1..], variables, r);
      ValueFormParses(ms[0].value, variables, MembersT(ms[1..], r));
      assert AMember(MembersT(ms, r), variables) ==
             Ok(Member(ms[0].name, ValueOf(ms[0].value, variables)), MembersT(ms[1..], r));
    }
  }

  // ----- Arguments, directives, types, variables -----

  lemma ArgumentFormsParse(ms: seq<MemberForm>, r: Input)
    requires AreMembers(ms, true) && !NextIsPunct(r, "(")
    ensures Arguments(ArgumentsT(ms, r)) == Ok(MembersOf(ms, true), r)
  {
    if ms != [] {
      MemberFormsParse(ms, true, Sym(")", r));
      hide AMember, MembersT, AreMembers, MembersOf;
      ArgumentsOfMembers(MembersT(ms, Sym(")", r)), MembersOf(ms, true), r);
    }
  }

  lemma ArgumentsOfMembers(i: Input, ms: seq<Member>, r: Input)
    requires Members(i, true) == Ok(ms, Sym(")", r)) && ms != []
    ensures Arguments(Sym("(", i)) == Ok(ms, r)
  {
    hide AMember;
  }

  lemma {:induction false} DirectiveFormsParse(ds: seq<DirectiveForm>, r: Input)
    requires AreDirectives(ds) && !NextIsPunct(r, "(") && !NextIsPunct(r, "@")
    ensures Directives(DirectivesT(ds, r)) == Ok(DirectivesOf(ds), r)
    ensures if ds == [] then DirectivesT(ds, r) == r else NextIsPunct(DirectivesT(ds, r), "@")
  {
    hide Arguments, ArgumentsT, AreMembers, MembersOf;
    if ds != [] {
      DirectiveFormsParse(ds[1..], r);
      ArgumentFormsParse(ds[0].arguments, DirectivesT(ds[1..], r));
    }
  }

  lemma {:induction false} TypeFormParses(t: Type, r: Input)
    requires IsType(t)
    ensures !t.NonNullType? ==> BaseType(TypeT(t, r)) == Ok(t, r)
    ensures !NextIsPunct(r, "!") ==> AType(TypeT(t, r)) == Ok(t, r)
  {
    match t
    case NamedType(n) =>
    case ListType(inner) => TypeFormParses(inner, Sym("]", r));
    case NonNullType(inner) => TypeFormParses(inner, Sym("!", r));
  }

  lemma VariableFormParses(v: DefinedVariable, r: Input)
    requires IsVariable(v) && !NextIsPunct(r, "!") && !NextIsPunct(r, "=")
    ensures AVariableDefinition(VariableT(v, r)) == Ok(VariableOf(v), r)
  {
    hide AValue, ValueT, ValueOf, IsValue, AType, TypeT, IsType;
    if v.default.Some? {
      ValueFormParses(v.default.value, false, r);
    }
    TypeFormParses(v.varType, DefaultT(v.default, r));
  }

  lemma {:induction false} VariableFormsParse(vs: seq<DefinedVariable>, r: Input)
    requires AreVariables(vs) && NextIsPunct(r, ")")
    ensures VariableDefinitions(VariablesT(vs, r)) == Ok(VariablesOf(vs), r)
    ensures vs != [] ==> NextIsPunct(VariablesT(vs, r), "$")
  {
    if vs != [] {
      VariableFormsParse(vs[1..], r);
      VariableFormParses(vs[0], VariablesT(vs[1..], r));
      hide AVariableDefinition, VariableOf, IsVariable;
      OneMoreVariable(VariablesT(vs, r), VariableOf(vs[0]), VariablesT(vs[1..], r), VariablesOf(vs[1..]), r);
    }
  }

  // ----- Selections -----

  lemma {:induction false} SelectionFormParses(s: SelectionForm, r: Input)
    requires IsSelection(s) && AfterSelection(r)
    ensures ASelection(SelectionT(s, r)) == Ok(SelectionOf(s), r)
    ensures AfterSelection(SelectionT(s, r))
    decreases s, 1
  {
    hide ASelection, ASelectionSet, Arguments, Directives, ArgumentsT, DirectivesT, AfterDots;
    match s
    case FieldForm(_, _, _, _, _) => FieldFormParses(s, r);
    case SpreadForm(name, directives) =>
      DirectiveFormsParse(directives, r);
      SpreadParses(name, DirectivesOf(directives), DirectivesT(directives, r), r);
      SpreadIsSelection(name, DirectivesT(directives, r));
    case InlineForm(condition, directives, items) =>
      SetFormParses(items, r);
      DirectiveFormsParse(directives, SetT(items, r));
      InlineFragmentOfParts(SelectionOf(s), SelectionT(s, r), r);
  }

  lemma {:induction false} FieldFormParses(s: SelectionForm, r: Input)
    requires s.FieldForm? && IsSelection(s) && AfterSelection(r)
    ensures ASelection(SelectionT(s, r)) == Ok(SelectionOf(s), r)
    ensures AfterSelection(SelectionT(s, r))
    decreases s, 0
  {
    hide ASelection, ASelectionSet, Arguments, Directives, ArgumentsT, DirectivesT;
    var FieldForm(alias, name, arguments, directives, items) := s;
    var end := if items == [] then r else SetT(items, r);
    if items != [] {
      SetFormParses(items, r);
      assert ASelectionSet(end) == Ok(SelectionsOf(items), r);
    }
    assert SelectionsOf(items) == [] <==> items == [];
    var dirs := DirectivesT(directives, end);
    DirectiveFormsParse(directives, end);
    ArgumentFormsParse(arguments, dirs);
    NextAfterArgumentForms(arguments, dirs);
    var args := ArgumentsT(arguments, dirs);
    assert SelectionT(s, r) == if alias.Some? then Word(alias.value, Sym(":", Word(name, args))) else Word(name, args);
    hide SelectionT, SelectionsT, SelectionsOf, IsSelection, AreSelections;
    FieldOfParts(SelectionOf(s), SelectionT(s, r), r);
  }

  lemma SpreadIsSelection(name: string, dirs: Input)
    ensures ASelection(Sym("...", Word(name, dirs))) == AfterDots(Sym("...", Word(name, dirs)))
  {
  }

  lemma NextAfterArgumentForms(ms: seq<MemberForm>, r: Input)
    ensures if ms == [] then ArgumentsT(ms, r) == r else NextIsPunct(ArgumentsT(ms, r), "(")
  {
  }

  lemma {:induction false} SetFormParses(ss: seq<SelectionForm>, r: Input)
    requires ss != [] && AreSelections(ss)
    ensures ASelectionSet(SetT(ss, r)) == Ok(SelectionsOf(ss), r)
    decreases ss, 1
  {
    hide ASelection, SelectionT, IsSelection, SelectionOf;
    var end := Sym("}", r);
    SelectionFormsParse(ss[1..], end);
    SelectionFormParses(ss[0], SelectionsT(ss[1..], end));
  }

  lemma {:induction false} SelectionFormsParse(ss: seq<SelectionForm>, r: Input)
    requires AreSelections(ss) && NextIsPunct(r, "}")
    ensures Selections(SelectionsT(ss, r)) == Ok(SelectionsOf(ss), r)
    ensures AfterSelection(SelectionsT(ss, r))
    decreases ss, 0
  {
    hide ASelection, SelectionT, IsSelection, SelectionOf;
    NoSelectionAtBrace(r);
    if ss != [] {
      SelectionFormsParse(ss[1..], r);
      SelectionFormParses(ss[0], SelectionsT(ss[1..], r));
    }
  }

  // ----- Definitions -----

  lemma EndFormParses(directives: seq<DirectiveForm>, items: seq<SelectionForm>, r: Input)
    requires AreDirectives(directives) && items != [] && AreSelections(items)
    ensures RoundTrip.EndsWith(DirectivesT(directives, SetT(items, r)),
                               DirectivesOf(directives), SelectionsOf(items), r)
  {
    hide ASelectionSet, Directives, DirectivesT;
    SetFormParses(items, r);
    DirectiveFormsParse(directives, SetT(items, r));
  }

  lemma VariablesInParentheses(vs: seq<DefinedVariable>, r: Input)
    requires AreVariables(vs) && vs != []
    ensures VariableList(Sym("(", VariablesT(vs, Sym(")", r)))) == Ok(VariablesOf(vs), r)
  {
    var end := Sym(")", r);
    VariableFormsParse(vs, end);
    hide VariableDefinitions, VariableList, VariablesT, AreVariables;
    ListOfVariables(VariablesT(vs, end), VariablesOf(vs), end);
  }

  lemma DefinitionFormParses(d: DefinitionForm, r: Input)
    requires IsDefinition(d)
    ensures ADefinition(DefinitionT(d, r)) == Ok(DefinitionOf(d), r)
  {
    hide ASelectionSet, Directives, VariableList, SetT, DirectivesT, VariablesT, ADefinition;
    match d
    case SetForm(items) =>
      SetFormParses(items, r);
      SetIsDefinition(SetT(items, r), SelectionsOf(items), r);
    case OperationForm(kind, name, variables, directives, items) =>
      EndFormParses(directives, items, r);
      var end := DirectivesT(directives, SetT(items, r));
      if variables != [] {
        VariablesInParentheses(variables, end);
      }
      OperationFormParses(DefinitionOf(d), DefinitionT(d, r), end, r);
    case FragmentForm(name, condition, directives, items) =>
      EndFormParses(directives, items, r);
      RoundTrip.FragmentOfParts(DefinitionOf(d), DefinitionT(d, r), DirectivesT(directives, SetT(items, r)), r);
  }

  lemma SetIsDefinition(i: Input, items: seq<Selection>, r: Input)
    requires ASelectionSet(i) == Ok(items, r)
    ensures ADefinition(i) == Ok(SelectionSet(items), r)
  {
    hide ASelectionSet, AnOperation;
  }

  /** An operation without a name may have variables too. */
  lemma OperationFormParses(d: Definition, i: Input, end: Input, r: Input)
    requires d.Operation? && NextIs(i, Name, Keyword(d.kind))
    requires RoundTrip.EndsWith(end, d.directives, d.selectionSet, r)
    requires d.opName.Some? ==> NextIs(i.rest, Name, d.opName.value)
    requires var list := if d.opName.Some? then i.rest.rest else i.rest;
             if d.variables == [] then list == end
             else NextIsPunct(list, "(") && VariableList(list) == Ok(d.variables, end)
    ensures ADefinition(i) == Ok(d, r)
  {
    hide Directives, VariableList, ASelectionSet, ADefinition;
    if d.variables == [] {
      RoundTrip.NoVariableList(end);
    }
    assert AnOperation(i, d.kind) == Ok(d, r);
    RoundTrip.OperationIsDefinition(d, i, r);
  }

  lemma {:induction false} DefinitionFormsParse(ds: seq<DefinitionForm>)
    requires AreDefinitions(ds)
    ensures Definitions(DocumentT(ds)) == Ok(DefinitionsOf(ds), End(EndOfInput))
    decreases |ds|
  {
    hide ADefinition, DefinitionT, DefinitionOf, IsDefinition;
    RoundTrip.NoDefinitionAtEnd(EndOfInput);
    if ds != [] {
      DefinitionFormsParse(ds[1..]);
      DefinitionFormParses(ds[0], DocumentT(ds[1..]));
    }
  }

  lemma DocumentFormParses(ds: seq<DefinitionForm>)
    requires AreDefinitions(ds) && ds != []
    ensures ParseTokens(DocumentT(ds)) == Some(Document(DefinitionsOf(ds)))
  {
    hide ADefinition, Definitions, DefinitionT, DefinitionOf, IsDefinition;
    DefinitionFormsParse(ds[1..]);
    DefinitionFormParses(ds[0], DocumentT(ds[1..]));
  }
}
