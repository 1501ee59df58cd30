/** Whatever is parsed is a form that may be written, and the parsed tree is what the form means. */
module ParsedForms {
  import opened Wrappers
  import opened Lexer
  import opened Ast
  import opened Grammar
  import opened Forms
  import opened FormsParse
  import opened LayoutParses
  import TokenTexts

  // ----- Values -----

  lemma PlainIsForm(i: Input, variables: bool) returns (f: ValueForm)
    requires PlainValue(i).Ok?
    ensures IsValue(f, variables) && i == ValueT(f, PlainValue(i).rest) && PlainValue(i).value == ValueOf(f, variables)
  {
    match i.tok.kind
    case Name => f := WordForm(i.tok.value);
    case IntValue => f := IntForm(i.tok.value);
    case FloatValue => f := FloatForm(i.tok.value);
    case StringValue => f := QuotedForm(i.tok.value);
    case BlockString => f := BlockForm(i.tok.value);
    case Punctuator => f := WordForm("");
  }

  lemma {:induction false} ValueIsForm(i: Input, variables: bool) returns (f: ValueForm)
    requires AValue(i, variables).Ok?
    ensures IsValue(f, variables)
    ensures i == ValueT(f, AValue(i, variables).rest) && AValue(i, variables).value == ValueOf(f, variables)
    decreases Size(i), 1
  {
    hide PlainValue, Values, Members;
    if PlainValue(i).Ok? {
      f := PlainIsForm(i, variables);
    } else if i.tok.value == "$" {
      f := VariableForm(i.rest.tok.value);
    } else if i.tok.value == "[" {
      var items := ValuesAreForms(i.rest, variables);
      f := ListForm(items);
    } else {
      var members := MembersAreForms(i.rest, variables);
      f := ObjectForm(members);
    }
  }

  lemma {:induction false} ValuesAreForms(i: Input, variables: bool) returns (fs: seq<ValueForm>)
    requires Values(i, variables).Ok?
    ensures AreValues(fs, variables)
    ensures i == ValuesT(fs, Values(i, variables).rest) && Values(i, variables).value == ValuesOf(fs, variables)
    decreases Size(i), 2
  {
    hide AValue, IsValue, ValueT, ValueOf;
    fs := [];
    if AValue(i, variables).Ok? {
      var f := ValueIsForm(i, variables);
      fs := ValuesAreForms(AValue(i, variables).rest, variables);
      fs := [f] + fs;
    }
  }

  lemma {:induction false} MembersAreForms(i: Input, variables: bool) returns (ms: seq<MemberForm>)
    requires Members(i, variables).Ok?
    ensures AreMembers(ms, variables)
    ensures i == MembersT(ms, Members(i, variables).rest) && Members(i, variables).value == MembersOf(ms, variables)
    decreases Size(i), 2
  {
    hide AValue, IsValue, ValueT, ValueOf;
    ms := [];
    if AMember(i, variables).Ok? {
      var f := ValueIsForm(i.rest.rest, variables);
      ms := MembersAreForms(AMember(i, variables).rest, variables);
      ms := [MemberForm(i.tok.value, f)] + ms;
    }
  }

  // ----- Arguments, directives, types, variables -----

  lemma ArgumentsAreForms(i: Input) returns (ms: seq<MemberForm>)
    requires Arguments(i).Ok?
    ensures AreMembers(ms, true)
    ensures i == ArgumentsT(ms, Arguments(i).rest) && Arguments(i).value == MembersOf(ms, true)
  {
    hide AMember, IsValue, ValueT, ValueOf;
    ms := [];
    if ArgumentList(i).Ok? {
      hide Members;
      ArgumentsAreMembers(i);
      ms := MembersAreForms(i.rest, true);
    }
  }

  lemma ArgumentsAreMembers(i: Input)
    requires ArgumentList(i).Ok?
    ensures NextIsPunct(i, "(") && Members(i.rest, true) == Ok(ArgumentList(i).value, Sym(")", ArgumentList(i).rest))
    ensures ArgumentList(i).value != []
  {
    hide AMember;
  }

  lemma {:induction false} DirectivesAreForms(i: Input) returns (ds: seq<DirectiveForm>)
    requires Directives(i).Ok?
    ensures AreDirectives(ds)
    ensures i == DirectivesT(ds, Directives(i).rest) && Directives(i).value == DirectivesOf(ds)
    decreases Size(i)
  {
    hide Arguments, ArgumentsT, AreMembers, MembersOf;
    ds := [];
    if ADirective(i).Ok? {
      var ms := ArgumentsAreForms(i.rest.rest);
      ds := DirectivesAreForms(ADirective(i).rest);
      ds := [DirectiveForm(i.rest.tok.value, ms)] + ds;
    }
  }

  lemma {:induction false} TypeIsForm(i: Input)
    requires AType(i).Ok?
    ensures IsType(AType(i).value) && i == TypeT(AType(i).value, AType(i).rest)
    decreases Size(i)
  {
    if i.tok.kind == Punctuator {
      TypeIsForm(i.rest);
    }
  }

  lemma VariableIsForm(i: Input) returns (v: DefinedVariable)
    requires AVariableDefinition(i).Ok?
    ensures IsVariable(v)
    ensures i == VariableT(v, AVariableDefinition(i).rest) && AVariableDefinition(i).value == VariableOf(v)
  {
    hide AValue, ValueT, ValueOf, IsValue, AType, TypeT, IsType;
    var typed := i.rest.rest.rest;
    TypeIsForm(typed);
    var r := AType(typed).rest;
    var default := None;
    if DefaultValue(r).Ok? {
      var f := ValueIsForm(r.rest, false);
      default := Some(f);
    }
    v := DefinedVariable(i.rest.tok.value, AType(typed).value, default);
  }

  lemma {:induction false} VariablesAreForms(i: Input) returns (vs: seq<DefinedVariable>)
    requires VariableDefinitions(i).Ok?
    ensures AreVariables(vs)
    ensures i == VariablesT(vs, VariableDefinitions(i).rest) && VariableDefinitions(i).value == VariablesOf(vs)
    decreases Size(i)
  {
    hide AVariableDefinition, VariableT, VariableOf, IsVariable;
    vs := [];
    if AVariableDefinition(i).Ok? {
      var v := VariableIsForm(i);
      vs := VariablesAreForms(AVariableDefinition(i).rest);
      vs := [v] + vs;
    }
  }

  lemma ListIsVariables(i: Input)
    requires VariableList(i).Ok?
    ensures NextIsPunct(i, "(")
    ensures VariableDefinitions(i.rest) == Ok(VariableList(i).value, Sym(")", VariableList(i).rest))
    ensures VariableList(i).value != []
  {
    hide AVariableDefinition;
  }

  // ----- Selections -----

  lemma {:induction false} SelectionIsForm(i: Input) returns (s: SelectionForm)
    requires ASelection(i).Ok?
    ensures IsSelection(s)
    ensures i == SelectionT(s, ASelection(i).rest) && ASelection(i).value == SelectionOf(s)
    decreases Size(i), 1
  {
    if AField(i).Ok? {
      s := FieldIsForm(i);
    } else {
      s := DotsAreForm(i);
    }
  }

  lemma {:induction false} FieldIsForm(i: Input) returns (s: SelectionForm)
    requires AField(i).Ok?
    ensures IsSelection(s)
    ensures i == SelectionT(s, AField(i).rest) && AField(i).value == SelectionOf(s)
    decreases Size(i), 0
  {
    hide ASelectionSet, Arguments, Directives, ArgumentsT, DirectivesT, AreMembers, AreDirectives;
    hide MembersOf, DirectivesOf;
    var aliased := AliasedName(i.rest).Ok?;
    var args := if aliased then i.rest.rest.rest else i.rest;
    var ms := ArgumentsAreForms(args);
    var dirs := Arguments(args).rest;
    var ds := DirectivesAreForms(dirs);
    var end := Directives(dirs).rest;
    var items := [];
    if ASelectionSet(end).Ok? {
      items := SetIsForms(end);
    }
    s := FieldForm(if aliased then Some(i.tok.value) else None, if aliased then i.rest.rest.tok.value else i.tok.value,
                   ms, ds, items);
  }

  lemma {:induction false} DotsAreForm(i: Input) returns (s: SelectionForm)
    requires AfterDots(i).Ok?
    ensures IsSelection(s)
    ensures i == SelectionT(s, AfterDots(i).rest) && AfterDots(i).value == SelectionOf(s)
    decreases Size(i), 0
  {
    hide ASelectionSet, Directives, DirectivesT, AreDirectives, DirectivesOf;
    var r := i.rest;
    if AnInlineFragment(r).Ok? {
      var conditional := Condition(r).Ok?;
      var dirs := if conditional then r.rest.rest else r;
      var ds := DirectivesAreForms(dirs);
      var items := SetIsForms(Directives(dirs).rest);
      s := InlineForm(if conditional then Some(r.rest.tok.value) else None, ds, items);
    } else {
      var ds := DirectivesAreForms(r.rest);
      s := SpreadForm(r.tok.value, ds);
    }
  }

  lemma {:induction false} SetIsForms(i: Input) returns (ss: seq<SelectionForm>)
    requires ASelectionSet(i).Ok?
    ensures ss != [] && AreSelections(ss)
    ensures i == SetT(ss, ASelectionSet(i).rest) && ASelectionSet(i).value == SelectionsOf(ss)
    decreases Size(i), 0
  {
    hide ASelection, SelectionT, IsSelection, SelectionOf;
    var s := SelectionIsForm(i.rest);
    ss := SelectionsAreForms(ASelection(i.rest).rest);
    ss := [s] + ss;
  }

  lemma {:induction false} SelectionsAreForms(i: Input) returns (ss: seq<SelectionForm>)
    requires Selections(i).Ok?
    ensures AreSelections(ss)
    ensures i == SelectionsT(ss, Selections(i).rest) && Selections(i).value == SelectionsOf(ss)
    decreases Size(i), 2
  {
    hide ASelection, SelectionT, IsSelection, SelectionOf;
    ss := [];
    if ASelection(i).Ok? {
      var s := SelectionIsForm(i);
      ss := SelectionsAreForms(ASelection(i).rest);
      ss := [s] + ss;
    }
  }

  // ----- Definitions -----

  lemma OperationIsForm(i: Input, kind: OperationType) returns (d: DefinitionForm)
    requires AnOperation(i, kind).Ok?
    ensures IsDefinition(d)
    ensures i == DefinitionT(d, AnOperation(i, kind).rest) && AnOperation(i, kind).value == DefinitionOf(d)
  {
    hide ASelectionSet, Directives, VariableList, SetT, DirectivesT, AreDirectives, AreSelections;
    hide SelectionsOf, DirectivesOf, VariableDefinitions;
    var r := i.rest;
    var named := AName(r).Ok?;
    var list := if named then r.rest else r;
    var vs, end := [], list;
    if VariableList(list).Ok? {
      ListIsVariables(list);
      vs := VariablesAreForms(list.rest);
      end := VariableList(list).rest;
    }
    var ds := DirectivesAreForms(end);
    var items := SetIsForms(Directives(end).rest);
    d := OperationForm(kind, if named then Some(r.tok.value) else None, vs, ds, items);
  }

  lemma FragmentIsForm(i: Input) returns (d: DefinitionForm)
    requires AFragmentDefinition(i).Ok?
    ensures IsDefinition(d)
    ensures i == DefinitionT(d, AFragmentDefinition(i).rest) && AFragmentDefinition(i).value == DefinitionOf(d)
  {
    hide ASelectionSet, Directives, SetT, DirectivesT, AreDirectives, AreSelections, SelectionsOf, DirectivesOf;
    var end := i.rest.rest.rest.rest;
    var ds := DirectivesAreForms(end);
    var items := SetIsForms(Directives(end).rest);
    d := FragmentForm(i.rest.tok.value, i.rest.rest.rest.tok.value, ds, items);
  }

  lemma DefinitionIsForm(i: Input) returns (d: DefinitionForm)
    requires ADefinition(i).Ok?
    ensures IsDefinition(d)
    ensures i == DefinitionT(d, ADefinition(i).rest) && ADefinition(i).value == DefinitionOf(d)
  {
    hide ASelectionSet, AnOperation, AFragmentDefinition, SetT;
    if ASelectionSet(i).Ok? {
      var items := SetIsForms(i);
      d := SetForm(items);
    } else if AnOperation(i, Query).Ok? {
      d := OperationIsForm(i, Query);
    } else if AnOperation(i, Mutation).Ok? {
      d := OperationIsForm(i, Mutation);
    } else if AnOperation(i, Subscription).Ok? {
      d := OperationIsForm(i, Subscription);
    } else {
      d := FragmentIsForm(i);
    }
  }

  lemma {:induction false} DefinitionsAreForms(i: Input) returns (ds: seq<DefinitionForm>)
    requires Definitions(i).Ok? && Definitions(i).rest == End(EndOfInput)
    ensures AreDefinitions(ds) && i == DocumentT(ds) && Definitions(i).value == DefinitionsOf(ds)
    decreases Size(i)
  {
    hide ADefinition, DefinitionT, DefinitionOf, IsDefinition;
    ds := [];
    if ADefinition(i).Ok? {
      var d := DefinitionIsForm(i);
      ds := DefinitionsAreForms(ADefinition(i).rest);
      ds := [d] + ds;
    }
  }

  // ----- Documents -----

  ghost predicate IsWritten(i: Input, doc: Document) {
    exists ds :: AreDefinitions(ds) && ds != [] && i == DocumentT(ds) && doc == Document(DefinitionsOf(ds))
  }

  /** The parser accepts exactly the token sequences of the grammar, and gives what they mean. */
  lemma ParsedTokensExactlyWhen(i: Input, doc: Document)
    ensures ParseTokens(i) == Some(doc) <==> IsWritten(i, doc)
  {
    hide ADefinition, Definitions, DefinitionT, DefinitionOf, IsDefinition;
    if ParseTokens(i) == Some(doc) {
      var d := DefinitionIsForm(i);
      var ds := DefinitionsAreForms(ADefinition(i).rest);
      var all := [d] + ds;
      assert AreDefinitions(all) && i == DocumentT(all) && doc == Document(DefinitionsOf(all));
    }
    if IsWritten(i, doc) {
      var ds :| AreDefinitions(ds) && ds != [] && i == DocumentT(ds) && doc == Document(DefinitionsOf(ds));
      DocumentFormParses(ds);
    }
  }

  /**
   A text is read as a document exactly when it consists of the tokens of a form of that document, apart from
   ignored text, and opens no more than fifty brackets at once.
   */
  lemma ParsedExactlyWhen(text: string, doc: Document)
    ensures ParseQuery(text) == Some(doc) <==> exists i :: TokenTexts.ConsistsOf(text, 50, i) && IsWritten(i, doc)
  {
    hide ParseTokens, Scan, IsWritten, TokenTexts.ConsistsOf;
    var scanned := Scan(text, RECURSION_LIMIT);
    if ParseQuery(text) == Some(doc) {
      TokenTexts.ScannedExactlyWhen(text, 50, scanned);
      ParsedTokensExactlyWhen(scanned, doc);
      assert TokenTexts.ConsistsOf(text, 50, scanned);
    }
    if i :| TokenTexts.ConsistsOf(text, 50, i) && IsWritten(i, doc) {
      TokenTexts.ScannedExactlyWhen(text, 50, i);
      ParsedTokensExactlyWhen(i, doc);
    }
  }
}
