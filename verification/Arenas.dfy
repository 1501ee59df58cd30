/**
 Resolved queries (crates/codegen/src/query.rs): selections in one flat table, with child
 lists and parent links, and where resolving a selection set puts its selections.

 What a selection set becomes is computed as a whole, by `Layout`: a stretch of entries with
 their parent links, to be put at the end of the table.  The methods in `Resolver.dfy` push
 the same entries one by one.
 */
module Arenas {
  import opened Wrappers
  import Ast
  import opened Schemas

  const TYPENAME_FIELD: string := "__typename"

  datatype Parent = OfField(id: nat) | OfInlineFragment(id: nat) | OfFragment(id: nat) | OfOperation(id: nat)

  datatype Node =
    | Field(alias: Option<string>, fieldId: nat, selectionSet: seq<nat>)
    | InlineFragment(typeId: TypeId, selectionSet: seq<nat>)
    | FragmentSpread(fragmentId: nat)
    | Typename
  {
    function Subselection(): seq<nat> {
      match this
      case Field(_, _, ids) => ids
      case InlineFragment(_, ids) => ids
      case _ => []
    }
  }

  datatype ResolvedFragment = ResolvedFragment(name: string, on: TypeId, selectionSet: seq<nat>)

  datatype ResolvedOperation = ResolvedOperation(
    name: string, kind: Ast.OperationType, objectId: nat, selectionSet: seq<nat>)

  datatype ResolvedVariable = ResolvedVariable(
    operationId: nat, name: string, default: Option<Ast.Value>, fieldType: FieldType)

  datatype Arena = Arena(
    fragments: seq<ResolvedFragment>,
    operations: seq<ResolvedOperation>,
    nodes: seq<Node>,
    parents: seq<Parent>,
    variables: seq<ResolvedVariable>)

  datatype ResolveError =
    | UnknownType(name: string)
    | UnknownFragment(name: string)
    | UnknownField(name: string)
    | FieldOnUnion
    | SelectionOnLeaf
    | MissingRoot
    | MissingName
    | SeveralSubscriptionFields
    | SelectionSetAtRoot
    | MissingTypeCondition   // a panic in the original, like the next two
    | UnknownOperation
    | UnknownVariableType(name: string)
    | MissingTypename
    | InvalidSpread

  // ----- Growing -----

  predicate HasParent(a: Arena, p: Parent) {
    match p
    case OfField(id) => id < |a.nodes| && a.nodes[id].Field?
    case OfInlineFragment(id) => id < |a.nodes| && a.nodes[id].InlineFragment?
    case OfFragment(id) => id < |a.fragments|
    case OfOperation(id) => id < |a.operations|
  }

  function ChildrenOf(a: Arena, p: Parent): seq<nat>
    requires HasParent(a, p)
  {
    match p
    case OfField(id) => a.nodes[id].selectionSet
    case OfInlineFragment(id) => a.nodes[id].selectionSet
    case OfFragment(id) => a.fragments[id].selectionSet
    case OfOperation(id) => a.operations[id].selectionSet
  }

  /** The arena with `ids` at the end of the child list of `p`. */
  function WithChildren(a: Arena, p: Parent, ids: seq<nat>): (b: Arena)
    requires HasParent(a, p)
    ensures HasParent(b, p)
  {
    var children := ChildrenOf(a, p) + ids;
    match p
    case OfField(id) => a.(nodes := a.nodes[id := Field(a.nodes[id].alias, a.nodes[id].fieldId, children)])
    case OfInlineFragment(id) => a.(nodes := a.nodes[id := InlineFragment(a.nodes[id].typeId, children)])
    case OfFragment(id) => a.(fragments := a.fragments[id := a.fragments[id].(selectionSet := children)])
    case OfOperation(id) => a.(operations := a.operations[id := a.operations[id].(selectionSet := children)])
  }

  /** Nodes to be put at the end of the table, with their parent links, and the ids of the topmost ones. */
  datatype Laid = Laid(nodes: seq<Node>, parents: seq<Parent>, ids: seq<nat>)

  /** The arena with the nodes laid at its end and their topmost ones made children of `p`. */
  function Grow(a: Arena, p: Parent, l: Laid): Arena
    requires HasParent(a, p)
  {
    WithChildren(a.(nodes := a.nodes + l.nodes, parents := a.parents + l.parents), p, l.ids)
  }

  // ----- Where selections go -----

  function FindFragment(fragments: seq<ResolvedFragment>, name: string): (r: Option<nat>)
    ensures r.Some? ==> r.value < |fragments| && fragments[r.value].name == name
    ensures r.Some? ==> forall i | 0 <= i < r.value :: fragments[i].name != name
    ensures r.None? ==> forall i | 0 <= i < |fragments| :: fragments[i].name != name
    decreases |fragments|
  {
    if fragments == [] then None
    else
      var r := FindFragment(fragments[..|fragments| - 1], name);
      if r.Some? then r
      else if fragments[|fragments| - 1].name == name then Some(|fragments| - 1)
      else None
  }

  /** What a resolver needs to know of the query: the names and types of its fragments. */
  function Heads(fragments: seq<ResolvedFragment>): seq<ResolvedFragment> {
    seq(|fragments|, i requires 0 <= i < |fragments| => fragments[i].(selectionSet := []))
  }

  /** The nodes for a selection set on type `on`, laid from index `base`; the topmost ones belong to `p`. */
  function Layout(schema: Schema, heads: seq<ResolvedFragment>, on: TypeId, items: seq<Ast.Selection>,
                  p: Parent, base: nat): (r: Result<Laid, ResolveError>)
    requires schema.Valid() && schema.Has(on)
    ensures r.Success? ==> |r.value.nodes| == |r.value.parents|
    decreases items, 0
  {
    if items == [] then Success(Laid([], [], []))
    else if !schema.IsComposite(on) then Failure(SelectionOnLeaf)
    else
      var init :- Layout(schema, heads, on, items[..|items| - 1], p, base);
      var at := base + |init.nodes|;
      var last :- LayoutOne(schema, heads, on, items[|items| - 1], p, at);
      Success(Laid(init.nodes + last.nodes, init.parents + last.parents, init.ids + [at]))
  }

  /** The nodes for one selection: its own at `base`, and those under it. */
  function LayoutOne(schema: Schema, heads: seq<ResolvedFragment>, on: TypeId, item: Ast.Selection,
                     p: Parent, base: nat): (r: Result<Laid, ResolveError>)
    requires schema.Valid() && schema.Has(on) && schema.IsComposite(on)
    ensures r.Success? ==> |r.value.nodes| == |r.value.parents| > 0 && r.value.ids == [base]
    decreases item, 1
  {
    match item {
      case Field(alias, name, _, _, sub) =>
        if name == TYPENAME_FIELD then Success(Laid([Typename], [p], [base]))
        else if on.UnionId? then Failure(FieldOnUnion)
        else
          var f := FindField(schema, schema.FieldsOf(on), name);
          if f.None? then Failure(UnknownField(name))
          else
            var below :- Layout(schema, heads, schema.fields[f.value].fieldType.id, sub, OfField(base), base + 1);
            Success(Laid([Field(alias, f.value, below.ids)] + below.nodes, [p] + below.parents, [base]))
      case InlineFragment(condition, _, sub) =>
        if condition.None? then Failure(MissingTypeCondition)
        else if schema.FindType(condition.value).None? then Failure(UnknownType(condition.value))
        else
          var t := schema.FindType(condition.value).value;
          var below :- Layout(schema, heads, t, sub, OfInlineFragment(base), base + 1);
          Success(Laid([InlineFragment(t, below.ids)] + below.nodes, [p] + below.parents, [base]))
      case FragmentSpread(name, _) =>
        var f := FindFragment(heads, name);
        if f.None? then Failure(UnknownFragment(name)) else Success(Laid([FragmentSpread(f.value)], [p], [base]))
    }
  }
}
