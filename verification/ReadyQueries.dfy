/** From the text of a query and a schema to a resolved query that every walk and every expansion can be run on. */
module ReadyQueries {
  import opened Wrappers
  import Ast
  import Lexer
  import opened Grammar
  import opened Schemas
  import opened Arenas
  import opened ArenaShape
  import opened Resolution
  import opened ResolvedDocuments
  import opened ResolvedVariables
  import opened UsedTypes
  import opened Expansion

  // ----- What is parsed has no empty inline fragments -----

  predicate Filled(s: Ast.Selection)
    decreases s
  {
    match s
    case Field(_, _, _, _, items) => AllFilled(items)
    case FragmentSpread(_, _) => true
    case InlineFragment(_, _, items) => items != [] && AllFilled(items)
  }

  predicate AllFilled(ss: seq<Ast.Selection>)
    decreases ss
  {
    ss == [] || (Filled(ss[0]) && AllFilled(ss[1..]))
  }

  predicate DefinitionsFilled(ds: seq<Ast.Definition>) {
    forall d | d in ds :: AllFilled(d.selectionSet)
  }

  lemma FilledCons(s: Ast.Selection, ss: seq<Ast.Selection>)
    requires Filled(s) && AllFilled(ss)
    ensures AllFilled([s] + ss)
  {
    assert ([s] + ss)[1..] == ss;
  }

  lemma {:induction false} SetFilled(i: Lexer.Input)
    requires ASelectionSet(i).Ok?
    ensures ASelectionSet(i).value != [] && AllFilled(ASelectionSet(i).value)
    decreases Size(i), 0
  {
    hide ASelection, Selections;
    var r := Punct(i, "{").rest;
    SelectionFilled(r);
    SelectionsFilled(ASelection(r).rest);
    FilledCons(ASelection(r).value, Selections(ASelection(r).rest).value);
  }

  lemma {:induction false} SelectionsFilled(i: Lexer.Input)
    requires Selections(i).Ok?
    ensures AllFilled(Selections(i).value)
    decreases Size(i), 2
  {
    hide ASelection;
    if ASelection(i).Ok? {
      SelectionFilled(i);
      SelectionsFilled(ASelection(i).rest);
      FilledCons(ASelection(i).value, Selections(ASelection(i).rest).value);
    }
  }

  lemma {:induction false} SelectionFilled(i: Lexer.Input)
    requires ASelection(i).Ok?
    ensures Filled(ASelection(i).value)
    decreases Size(i), 1
  {
    hide AField, AfterDots;
    if ASelection(i) == AField(i) {
      FieldFilled(i);
    } else {
      AfterDotsFilled(i);
    }
  }

  lemma {:induction false} FieldFilled(i: Lexer.Input)
    requires AField(i).Ok?
    ensures Filled(AField(i).value)
    decreases Size(i), 0
  {
    hide ASelectionSet, Arguments, Directives;
    var r := AName(i).rest;
    var r1 := Opt(r, AliasedName(r)).rest;
    var r2 := Arguments(r1).rest;
    var r3 := Directives(r2).rest;
    if ASelectionSet(r3).Ok? {
      SetFilled(r3);
    }
  }

  lemma {:induction false} AfterDotsFilled(i: Lexer.Input)
    requires AfterDots(i).Ok?
    ensures Filled(AfterDots(i).value)
    decreases Size(i), 0
  {
    hide ASelectionSet, Directives;
    var r := Punct(i, "...").rest;
    if AnInlineFragment(r).Ok? {
      var r1 := Directives(Opt(r, Condition(r)).rest).rest;
      SetFilled(r1);
    }
  }

  lemma DefinitionFilled(i: Lexer.Input)
    requires ADefinition(i).Ok?
    ensures AllFilled(ADefinition(i).value.selectionSet)
  {
    hide ASelectionSet, Directives, VariableList;
    forall j | ASelectionSet(j).Ok? ensures AllFilled(ASelectionSet(j).value) {
      SetFilled(j);
    }
  }

  lemma {:induction false} AllDefinitionsFilled(i: Lexer.Input)
    requires Definitions(i).Ok?
    ensures DefinitionsFilled(Definitions(i).value)
    decreases Size(i)
  {
    hide ADefinition, AllFilled;
    if ADefinition(i).Ok? {
      DefinitionFilled(i);
      AllDefinitionsFilled(ADefinition(i).rest);
    }
  }

  /** An inline fragment in a query text has at least one selection. */
  lemma ParsedIsFilled(text: string)
    requires ParseQuery(text).Some?
    ensures DefinitionsFilled(ParseQuery(text).value.definitions)
  {
    hide ADefinition, Definitions, AllFilled;
    var i := Lexer.Scan(text, RECURSION_LIMIT);
    DefinitionFilled(i);
    AllDefinitionsFilled(ADefinition(i).rest);
  }

  // ----- What is resolved selects no input types -----

  /** Fields of objects and interfaces have output types (section 3.6 of the GraphQL specification, June 2018). */
  predicate OutputTyped(schema: Schema) {
    forall f | 0 <= f < |schema.fields| :: !schema.fields[f].fieldType.id.InputId?
  }

  predicate NoneSelectInputs(schema: Schema, nodes: seq<Node>)
    requires schema.Valid()
  {
    forall k | 0 <= k < |nodes| :: SelectsNoInput(schema, nodes[k])
  }

  predicate SelectsNoInput(schema: Schema, node: Node) {
    match node
    case Field(_, f, _) => f < |schema.fields| && !schema.fields[f].fieldType.id.InputId?
    case InlineFragment(t, _) => !t.InputId?
    case _ => true
  }

  lemma {:induction false} LayoutSelectsNoInputs(schema: Schema, heads: seq<ResolvedFragment>, on: TypeId,
                                                 items: seq<Ast.Selection>, p: Parent, base: nat)
    requires schema.Valid() && OutputTyped(schema) && schema.Has(on) && AllFilled(items)
    requires Layout(schema, heads, on, items, p, base).Success?
    ensures NoneSelectInputs(schema, Layout(schema, heads, on, items, p, base).value.nodes)
    ensures items != [] ==> schema.IsComposite(on)
    decreases items, 0
  {
    hide LayoutOne, SelectsNoInput, Filled;
    if items != [] {
      FilledParts(items);
      var init := Layout(schema, heads, on, items[..|items| - 1], p, base).value;
      LayoutSelectsNoInputs(schema, heads, on, items[..|items| - 1], p, base);
      OneSelectsNoInputs(schema, heads, on, items[|items| - 1], p, base + |init.nodes|);
    }
  }

  lemma {:induction false} FilledParts(ss: seq<Ast.Selection>)
    requires AllFilled(ss) && ss != []
    ensures AllFilled(ss[..|ss| - 1]) && Filled(ss[|ss| - 1])
  {
    hide Filled;
    if |ss| > 1 {
      FilledParts(ss[1..]);
      assert ss[1..][..|ss| - 2] == ss[..|ss| - 1][1..];
    }
  }

  lemma {:induction false} OneSelectsNoInputs(schema: Schema, heads: seq<ResolvedFragment>, on: TypeId,
                                              item: Ast.Selection, p: Parent, base: nat)
    requires schema.Valid() && OutputTyped(schema) && schema.Has(on) && schema.IsComposite(on) && Filled(item)
    requires LayoutOne(schema, heads, on, item, p, base).Success?
    ensures NoneSelectInputs(schema, LayoutOne(schema, heads, on, item, p, base).value.nodes)
    decreases item, 1
  {
    hide Layout;
    match item {
      case Field(_, name, _, _, sub) =>
        if name != TYPENAME_FIELD {
          var f := FindField(schema, schema.FieldsOf(on), name).value;
          LayoutSelectsNoInputs(schema, heads, schema.fields[f].fieldType.id, sub, OfField(base), base + 1);
        }
      case InlineFragment(condition, _, sub) =>
        var t := schema.FindType(condition.value).value;
        LayoutSelectsNoInputs(schema, heads, t, sub, OfInlineFragment(base), base + 1);
      case FragmentSpread(_, _) =>
    }
  }

  lemma DefinitionSelectsNoInputs(schema: Schema, a: Arena, d: Ast.Definition)
    requires schema.Valid() && OutputTyped(schema) && AllFilled(d.selectionSet)
    requires WithDefinition(schema, a, d).Success? && NoneSelectInputs(schema, a.nodes)
    ensures NoneSelectInputs(schema, WithDefinition(schema, a, d).value.nodes)
  {
    hide Layout;
    var place := PlaceOf(schema, a, d).value;
    LayoutSelectsNoInputs(schema, Heads(a.fragments), place.1, d.selectionSet, place.0, |a.nodes|);
  }

  lemma {:induction false} DefinitionsSelectNoInputs(schema: Schema, a: Arena, ds: seq<Ast.Definition>)
    requires schema.Valid() && OutputTyped(schema) && DefinitionsFilled(ds)
    requires WithDefinitions(schema, a, ds).Success? && NoneSelectInputs(schema, a.nodes)
    ensures NoneSelectInputs(schema, WithDefinitions(schema, a, ds).value.nodes)
  {
    hide WithDefinition, AllFilled, SelectsNoInput;
    if ds != [] {
      DefinitionsSelectNoInputs(schema, a, ds[..|ds| - 1]);
      DefinitionSelectsNoInputs(schema, WithDefinitions(schema, a, ds[..|ds| - 1]).value, ds[|ds| - 1]);
    }
  }

  /**
   Every parsed document that can be resolved with a schema whose fields have output types
   can be expanded, and its variables have types that can be looked up.  Fragments and
   operations need not have different names.
   */
  lemma ResolvedIsReady(cx: Context, doc: Ast.Document)
    requires cx.schema.Valid() && OutputTyped(cx.schema) && DefinitionsFilled(doc.definitions)
    requires Resolved(cx.schema, doc) == Success(cx.a)
    ensures Ready(cx) && InRange(cx.schema, cx.a.variables)
  {
    hide WithDefinitions, WithRoots, DefinitionsFilled, Shaped, Ready, Walkable, SelectsNoInput;
    ResolvedQueriesAreShaped(cx.schema, doc, false);
    ShapedIsReady(cx, false);
    VariablesInRange(cx.schema, doc);
    DefinitionsSelectNoInputs(cx.schema, WithRoots(cx.schema, NOTHING, doc.definitions).value, doc.definitions);
    OutputsOnly(cx);
  }

  lemma OutputsOnly(cx: Context)
    requires cx.schema.Valid() && Walkable(cx.schema, cx.a) && NoneSelectInputs(cx.schema, cx.a.nodes)
    ensures SelectsNoInputs(cx.schema, cx.a)
  {
  }
}
