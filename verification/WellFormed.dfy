/** The documents the printer can write so that they are read back, and how deep their brackets nest. */
module WellFormed {
  import opened Lexer
  import opened Ast
  import opened Layout
  import Numerals

  predicate ValidName(n: string) {
    n != "" && IsNameStart(n[0]) && forall i | 0 <= i < |n| :: IsNameChar(n[i])
  }

  /** `variables` says whether variables may be used: not in default values. */
  predicate WfValue(v: Value, indent: nat, variables: bool)
    decreases v
  {
    match v
    case Variable(n) => variables && ValidName(n)
    case Int(n) => Numerals.IsI64(n)
    case Float(_) => false
    case String(s) => Quotable(s, indent)
    case Boolean(_) => true
    case Null => true
    case Enum(n) => ValidName(n) && n != "true" && n != "false" && n != "null"
    case List(items) => WfValues(items, indent, variables)
    case Object(fields) => Ordered(fields) && WfMembers(fields, indent, variables)
  }

  predicate WfValues(vs: seq<Value>, indent: nat, variables: bool)
    decreases vs
  {
    vs == [] || (WfValue(vs[0], indent, variables) && WfValues(vs[1..], indent, variables))
  }

  predicate WfMembers(ms: seq<Member>, indent: nat, variables: bool)
    decreases ms
  {
    ms == []
    || (ValidName(ms[0].name) && WfValue(ms[0].value, indent, variables) && WfMembers(ms[1..], indent, variables))
  }

  predicate WfDirectives(ds: seq<Directive>, indent: nat) {
    ds == []
    || (ValidName(ds[0].name) && WfMembers(ds[0].arguments, indent, true) && WfDirectives(ds[1..], indent))
  }

  predicate WfType(t: Type) {
    match t
    case NamedType(n) => ValidName(n)
    case ListType(inner) => WfType(inner)
    case NonNullType(inner) => !inner.NonNullType? && WfType(inner)
  }

  predicate WfVariable(v: VariableDefinition) {
    && ValidName(v.name)
    && WfType(v.varType)
    && (v.defaultValue.Some? ==> WfValue(v.defaultValue.value, 0, false))
  }

  predicate WfVariables(vs: seq<VariableDefinition>) {
    vs == [] || (WfVariable(vs[0]) && WfVariables(vs[1..]))
  }

  predicate WfSelection(s: Selection, indent: nat, step: nat)
    decreases s
  {
    && WfDirectives(s.directives, indent)
    && match s
       case Field(alias, name, arguments, _, items) =>
         && (alias.Some? ==> ValidName(alias.value))
         && ValidName(name)
         && WfMembers(arguments, indent, true)
         && WfSelections(items, indent + step, step)
       case FragmentSpread(name, _) => ValidName(name) && name != "on"
       case InlineFragment(condition, _, items) =>
         && (condition.Some? ==> ValidName(condition.value))
         && items != []
         && WfSelections(items, indent + step, step)
  }

  predicate WfSelections(ss: seq<Selection>, indent: nat, step: nat)
    decreases ss
  {
    ss == [] || (WfSelection(ss[0], indent, step) && WfSelections(ss[1..], indent, step))
  }

  predicate WfDefinition(d: Definition, step: nat) {
    && d.selectionSet != []
    && WfSelections(d.selectionSet, step, step)
    && match d
       case SelectionSet(_) => true
       case Operation(_, name, variables, directives, _) =>
         && (if name.Some? then ValidName(name.value) else variables == [])
         && WfVariables(variables)
         && WfDirectives(directives, 0)
       case Fragment(name, condition, directives, _) =>
         ValidName(name) && ValidName(condition) && WfDirectives(directives, 0)
  }

  predicate WfDefinitions(ds: seq<Definition>, step: nat) {
    ds == [] || (WfDefinition(ds[0], step) && WfDefinitions(ds[1..], step))
  }

  predicate WfDocument(doc: Document, step: nat) {
    doc.definitions != [] && WfDefinitions(doc.definitions, step)
  }

  // ----- Nesting of brackets -----

  function Max(a: nat, b: nat): nat {
    if a < b then b else a
  }

  function ValueDepth(v: Value): nat
    decreases v
  {
    match v
    case List(items) => 1 + ValuesDepth(items)
    case Object(fields) => 1 + MembersDepth(fields)
    case _ => 0
  }

  function ValuesDepth(vs: seq<Value>): nat
    decreases vs
  {
    if vs == [] then 0 else Max(ValueDepth(vs[0]), ValuesDepth(vs[1..]))
  }

  function MembersDepth(ms: seq<Member>): nat
    decreases ms
  {
    if ms == [] then 0 else Max(ValueDepth(ms[0].value), MembersDepth(ms[1..]))
  }

  function ArgumentsDepth(ms: seq<Member>): nat {
    if ms == [] then 0 else 1 + MembersDepth(ms)
  }

  function DirectivesDepth(ds: seq<Directive>): nat {
    if ds == [] then 0 else Max(ArgumentsDepth(ds[0].arguments), DirectivesDepth(ds[1..]))
  }

  function TypeDepth(t: Type): nat {
    match t
    case NamedType(_) => 0
    case ListType(inner) => 1 + TypeDepth(inner)
    case NonNullType(inner) => TypeDepth(inner)
  }

  function VariablesDepth(vs: seq<VariableDefinition>): nat {
    if vs == [] then 0
    else
      Max(Max(TypeDepth(vs[0].varType), if vs[0].defaultValue.Some? then ValueDepth(vs[0].defaultValue.value) else 0),
          VariablesDepth(vs[1..]))
  }

  function SelectionDepth(s: Selection): nat
    decreases s
  {
    Max(DirectivesDepth(s.directives),
        match s
        case Field(_, _, arguments, _, items) =>
          Max(ArgumentsDepth(arguments), if items == [] then 0 else 1 + SelectionsDepth(items))
        case FragmentSpread(_, _) => 0
        case InlineFragment(_, _, items) => 1 + SelectionsDepth(items))
  }

  function SelectionsDepth(ss: seq<Selection>): nat
    decreases ss
  {
    if ss == [] then 0 else Max(SelectionDepth(ss[0]), SelectionsDepth(ss[1..]))
  }

  function DefinitionDepth(d: Definition): nat {
    Max(1 + SelectionsDepth(d.selectionSet),
        match d
        case SelectionSet(_) => 0
        case Operation(_, _, variables, directives, _) =>
          Max(DirectivesDepth(directives), if variables == [] then 0 else 1 + VariablesDepth(variables))
        case Fragment(_, _, directives, _) => DirectivesDepth(directives))
  }

  function DefinitionsDepth(ds: seq<Definition>): nat {
    if ds == [] then 0 else Max(DefinitionDepth(ds[0]), DefinitionsDepth(ds[1..]))
  }
}
