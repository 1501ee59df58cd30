/** Printing a query document and reading the text back. */
module RoundTrip {
  import opened Wrappers
  import opened Lexer
  import opened Ast
  import opened Layout
  import opened WellFormed
  import opened Grammar
  import opened LayoutParses
  import LayoutScans

  // ----- Definitions -----

  /** Directives and the block after them, as every definition ends. */
  lemma {:induction false} DirectedParses(directives: seq<Directive>, items: seq<Selection>, step: nat, c: Chunks)
    requires WfDirectives(directives, 0) && items != [] && WfSelections(items, step, step)
    ensures var i := TokensOf(DirectivesC(directives, 0, step, G(" ", BlockC(items, 0, step, c))));
            && Directives(i).Ok? && Directives(i).value == directives
            && ASelectionSet(Directives(i).rest) == Ok(items, TokensOf(c))
            && (NextIsPunct(i, "@") || NextIsPunct(i, "{"))
  {
    hide ASelectionSet, Directives, BlockC, DirectivesC;
    var block := BlockC(items, 0, step, c);
    BlockParses(items, 0, step, c);
    assert TokensOf(G(" ", block)) == TokensOf(block);
    DirectivesParse(directives, 0, step, G(" ", block));
  }

  /** What an operation or a fragment looks like after its head. */
  predicate EndsWith(i: Input, directives: seq<Directive>, items: seq<Selection>, rest: Input) {
    && (NextIsPunct(i, "@") || NextIsPunct(i, "{"))
    && Directives(i).Ok? && Directives(i).value == directives
    && ASelectionSet(Directives(i).rest) == Ok(items, rest)
  }

  /** The parts of an operation, one after the other. */
  predicate OperationParts(d: Definition, i: Input, end: Input, rest: Input)
    requires d.Operation?
  {
    && NextIs(i, Name, Keyword(d.kind))
    && EndsWith(end, d.directives, d.selectionSet, rest)
    && if d.opName.None? then i.rest == end && d.variables == []
       else
         && NextIs(i.rest, Name, d.opName.value)
         && (if d.variables == [] then i.rest.rest == end else VariableList(i.rest.rest) == Ok(d.variables, end))
  }

  lemma OperationOfParts(d: Definition, i: Input, end: Input, rest: Input)
    requires d.Operation? && OperationParts(d, i, end, rest)
    ensures AnOperation(i, d.kind) == Ok(d, rest)
  {
    hide Directives, VariableList, ASelectionSet;
    var r := i.rest;
    var r1 := if d.opName.None? then r else r.rest;
    if d.variables == [] {
      NoVariableList(r1);
    }
  }

  lemma NoVariableList(i: Input)
    requires !NextIsPunct(i, "(")
    ensures VariableList(i) == Fail(i)
  {
  }

  lemma OperationIsDefinition(d: Definition, i: Input, rest: Input)
    requires d.Operation? && NextIs(i, Name, Keyword(d.kind))
    requires AnOperation(i, d.kind) == Ok(d, rest)
    ensures ADefinition(i) == Ok(d, rest)
  {
    assert ASelectionSet(i) == Fail(i);
    assert d.kind != Query ==> AnOperation(i, Query) == Fail(i);
    assert d.kind != Mutation ==> AnOperation(i, Mutation) == Fail(i);
    hide ASelectionSet, AnOperation, AFragmentDefinition;
  }

  lemma FragmentOfParts(d: Definition, i: Input, end: Input, rest: Input)
    requires d.Fragment? && NextIs(i, Name, "fragment") && NextIs(i.rest, Name, d.name)
    requires NextIs(i.rest.rest, Name, "on") && NextIs(i.rest.rest.rest, Name, d.typeCondition)
    requires i.rest.rest.rest.rest == end && EndsWith(end, d.directives, d.selectionSet, rest)
    ensures ADefinition(i) == Ok(d, rest)
  {
    hide Directives, ASelection, VariableDefinitions;
    assert AFragmentDefinition(i) == Ok(d, rest);
    assert ASelectionSet(i) == Fail(i);
    assert AnOperationDefinition(i) == Fail(i);
  }

  lemma {:induction false} OperationParses(d: Definition, step: nat, c: Chunks)
    requires d.Operation? && WfDefinition(d, step)
    ensures ADefinition(TokensOf(DefinitionC(d, true, step, c))) == Ok(d, TokensOf(c))
  {
    hide BlockC, DirectivesC, VariablesC, Directives, ASelectionSet, VariableList, ADefinition;
    var Operation(kind, name, variables, directives, items) := d;
    var rest := DirectivesC(directives, 0, step, G(" ", BlockC(items, 0, step, c)));
    DirectedParses(directives, items, step, c);
    if variables != [] {
      assert TokensOf(P(")", rest)) == More(Token(Punctuator, ")"), TokensOf(rest));
      VariableListParses(variables, step, P(")", rest));
    }
    var i := TokensOf(DefinitionC(d, true, step, c));
    if name.Some? {
      var list := if variables == [] then rest else P("(", VariablesC(variables, step, P(")", rest)));
      assert TokensOf(N(name.value, list)) == More(Token(Name, name.value), TokensOf(list));
      assert TokensOf(G(" ", N(name.value, list))) == TokensOf(N(name.value, list));
    }
    OperationOfParts(d, i, TokensOf(rest), TokensOf(c));
    OperationIsDefinition(d, i, TokensOf(c));
  }

  lemma FragmentParses(d: Definition, step: nat, c: Chunks)
    requires d.Fragment? && WfDefinition(d, step)
    ensures ADefinition(TokensOf(DefinitionC(d, true, step, c))) == Ok(d, TokensOf(c))
  {
    var Fragment(name, condition, directives, items) := d;
    DirectedParses(directives, items, step, c);
    hide BlockC, DirectivesC, Directives, ASelectionSet, ADefinition;
    var rest := DirectivesC(directives, 0, step, G(" ", BlockC(items, 0, step, c)));
    var named := N(condition, rest);
    var on := N("on", G(" ", named));
    assert TokensOf(named) == More(Token(Name, condition), TokensOf(rest));
    assert TokensOf(G(" ", named)) == TokensOf(named);
    assert TokensOf(on) == More(Token(Name, "on"), TokensOf(named));
    assert TokensOf(G(" ", on)) == TokensOf(on);
    assert TokensOf(N(name, G(" ", on))) == More(Token(Name, name), TokensOf(on));
    assert TokensOf(G(" ", N(name, G(" ", on)))) == TokensOf(N(name, G(" ", on)));
    FragmentOfParts(d, TokensOf(DefinitionC(d, true, step, c)), TokensOf(rest), TokensOf(c));
  }

  lemma DefinitionParses(d: Definition, first: bool, step: nat, c: Chunks)
    requires WfDefinition(d, step)
    ensures ADefinition(TokensOf(DefinitionC(d, first, step, c))) == Ok(d, TokensOf(c))
  {
    hide BlockC, DirectivesC, VariablesC, Directives, ASelectionSet;
    assert TokensOf(G("\n", DefinitionC(d, true, step, c))) == TokensOf(DefinitionC(d, true, step, c));
    match d {
      case SelectionSet(items) =>
        BlockParses(items, 0, step, c);
      case Operation(_, _, _, _, _) =>
        OperationParses(d, step, c);
      case Fragment(_, _, _, _) =>
        FragmentParses(d, step, c);
    }
  }

  lemma {:induction false} DefinitionsParse(ds: seq<Definition>, first: bool, step: nat)
    requires WfDefinitions(ds, step)
    ensures Definitions(TokensOf(DefinitionsC(ds, first, step, Nil))) == Ok(ds, End(EndOfInput))
    decreases ds
  {
    hide DefinitionC, WfDefinition, ADefinition;
    NoDefinitionAtEnd(EndOfInput);
    if ds != [] {
      DefinitionsParse(ds[1..], false, step);
      DefinitionParses(ds[0], first, step, DefinitionsC(ds[1..], false, step, Nil));
      assert ds == [ds[0]] + ds[1..];
    }
  }

  lemma NoDefinitionAtEnd(e: LexError)
    ensures ADefinition(End(e)) == Fail(End(e))
  {
  }

  lemma {:induction false} DocumentParses(doc: Document, step: nat)
    requires WfDocument(doc, step)
    ensures ParseTokens(TokensOf(DefinitionsC(doc.definitions, true, step, Nil))) == Some(doc)
  {
    hide DefinitionC, WfDefinition, ADefinition;
    var ds := doc.definitions;
    DefinitionsParse(ds[1..], false, step);
    DefinitionParses(ds[0], true, step, DefinitionsC(ds[1..], false, step, Nil));
    assert ds == [ds[0]] + ds[1..];
  }

  // ----- The round trip -----

  /**
   A well-formed document printed in any style is read back unchanged, unless its brackets
   nest deeper than the recursion limit: then, and only then, reading fails.
   */
  lemma {:induction false} PrintedDocumentIsReadBack(doc: Document, step: nat)
    requires WfDocument(doc, step)
    requires RECURSION_LIMIT + |Format(doc, step)| < USIZE_MAX
    ensures DefinitionsDepth(doc.definitions) <= RECURSION_LIMIT ==> ParseQuery(Format(doc, step)) == Some(doc)
    ensures DefinitionsDepth(doc.definitions) > RECURSION_LIMIT ==> ParseQuery(Format(doc, step)) == None
  {
    hide ParseTokens, Scan, LayoutScans.Spaced;
    var c := DefinitionsC(doc.definitions, true, step, Nil);
    NothingIsSpaced();
    LayoutScans.FineDefinitions(doc.definitions, true, step, Nil, RECURSION_LIMIT);
    LayoutScans.ScanOfLayout(c, RECURSION_LIMIT);
    DocumentParses(doc, step);
  }

  lemma NothingIsSpaced()
    ensures LayoutScans.Spaced(Nil) && Fits(TokensOf(Nil), RECURSION_LIMIT)
  {
  }

  // ----- Documents with unnamed operations that have variables -----

  /** The definition without what the printer does not write. */
  function StripDefinition(d: Definition): Definition {
    if d.Operation? && d.opName.None? then d.(variables := []) else d
  }

  function StripDefinitions(ds: seq<Definition>): seq<Definition> {
    if ds == [] then [] else [StripDefinition(ds[0])] + StripDefinitions(ds[1..])
  }

  /** The document with the variables of its unnamed operations left out. */
  function Strip(doc: Document): Document {
    Document(StripDefinitions(doc.definitions))
  }

  /** No unnamed operation has variables. */
  predicate OnlyNamedHaveVariables(doc: Document) {
    forall d | d in doc.definitions :: d.Operation? && d.opName.None? ==> d.variables == []
  }

  lemma {:induction false} PrintsAlike(ds: seq<Definition>, first: bool, step: nat)
    ensures DefinitionsC(StripDefinitions(ds), first, step, Nil) == DefinitionsC(ds, first, step, Nil)
    decreases ds
  {
    if ds != [] {
      PrintsAlike(ds[1..], false, step);
      var rest := DefinitionsC(ds[1..], false, step, Nil);
      assert DefinitionC(StripDefinition(ds[0]), first, step, rest) == DefinitionC(ds[0], first, step, rest);
      assert StripDefinitions(ds)[1..] == StripDefinitions(ds[1..]);
    }
  }

  lemma {:induction false} StripKeeps(ds: seq<Definition>)
    ensures StripDefinitions(ds) == ds <==>
            forall d | d in ds :: d.Operation? && d.opName.None? ==> d.variables == []
  {
    if ds != [] {
      StripKeeps(ds[1..]);
      assert StripDefinitions(ds)[0] == StripDefinition(ds[0]);
      assert StripDefinitions(ds)[1..] == StripDefinitions(ds[1..]);
      assert ds == [ds[0]] + ds[1..];
    }
  }

  /**
   Any document that is well-formed but for variables of unnamed operations: it is read back
   unchanged exactly when no unnamed operation has any and its brackets do not nest too deep.
   Otherwise it is read back without them, or not at all.
   */
  lemma {:induction false} ReadBackUnlessVariablesAreLost(doc: Document, step: nat)
    requires WfDocument(Strip(doc), step)
    requires RECURSION_LIMIT + |Format(doc, step)| < USIZE_MAX
    ensures ParseQuery(Format(doc, step)) == Some(doc) ==>
              OnlyNamedHaveVariables(doc) && DefinitionsDepth(doc.definitions) <= RECURSION_LIMIT
    ensures OnlyNamedHaveVariables(doc) && DefinitionsDepth(doc.definitions) <= RECURSION_LIMIT ==>
              ParseQuery(Format(doc, step)) == Some(doc)
    ensures DefinitionsDepth(Strip(doc).definitions) <= RECURSION_LIMIT ==>
            ParseQuery(Format(doc, step)) == Some(Strip(doc))
    ensures DefinitionsDepth(Strip(doc).definitions) > RECURSION_LIMIT ==> ParseQuery(Format(doc, step)) == None
  {
    hide WfDocument, ParseQuery, DefinitionsDepth, DefinitionsC;
    PrintsAlike(doc.definitions, true, step);
    StripKeeps(doc.definitions);
    assert Format(Strip(doc), step) == Format(doc, step);
    PrintedDocumentIsReadBack(Strip(doc), step);
  }
}
