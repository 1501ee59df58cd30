/**
 Resolving whole documents (crates/codegen/src/query.rs, `resolve`): every fragment and
 operation gets an entry first, then the selections of each are laid under its entry.

 `Resolved` computes the whole arena, or the first error; the methods are proved against it,
 for documents in which names may occur more than once, as the original does not forbid it.
 */
module Resolution {
  import opened Wrappers
  import opened Ast
  import opened TypeQualifiers
  import opened Schemas
  import opened Arenas
  import Resolver

  // ----- What resolving gives -----

  function RootType(schema: Schema, kind: OperationType): Option<nat> {
    match kind
    case Query => schema.queryType
    case Mutation => schema.mutationType
    case Subscription => schema.subscriptionType
  }

  /** The arena with an empty entry for one definition. */
  function WithRoot(schema: Schema, a: Arena, d: Definition): (r: Result<Arena, ResolveError>)
    ensures r.Success? ==> r.value.(fragments := a.fragments, operations := a.operations) == a
  {
    match d
    case Fragment(name, condition, _, _) =>
      var on := schema.FindType(condition);
      if on.None? then Failure(UnknownType(condition))
      else Success(a.(fragments := a.fragments + [ResolvedFragment(name, on.value, [])]))
    case SelectionSet(_) => Failure(SelectionSetAtRoot)
    case Operation(kind, name, _, _, items) =>
      var on := RootType(schema, kind);
      if on.None? then Failure(MissingRoot)
      else if kind.Subscription? && |items| != 1 then Failure(SeveralSubscriptionFields)
      else if name.None? then Failure(MissingName)
      else Success(a.(operations := a.operations + [ResolvedOperation(name.value, kind, on.value, [])]))
  }

  function WithRoots(schema: Schema, a: Arena, defs: seq<Definition>): (r: Result<Arena, ResolveError>)
    ensures r.Success? ==> r.value.(fragments := a.fragments, operations := a.operations) == a
  {
    if defs == [] then Success(a)
    else
      var init :- WithRoots(schema, a, defs[..|defs| - 1]);
      WithRoot(schema, init, defs[|defs| - 1])
  }

  function FindOperation(operations: seq<ResolvedOperation>, name: string): (r: Option<nat>)
    ensures r.Some? ==> r.value < |operations| && operations[r.value].name == name
    ensures r.Some? ==> forall i | 0 <= i < r.value :: operations[i].name != name
    ensures r.None? ==> forall i | 0 <= i < |operations| :: operations[i].name != name
    decreases |operations|
  {
    if operations == [] then None
    else
      var r := FindOperation(operations[..|operations| - 1], name);
      if r.Some? then r
      else if operations[|operations| - 1].name == name then Some(|operations| - 1)
      else None
  }

  function VariableOf(schema: Schema, operation: nat, v: VariableDefinition): Result<ResolvedVariable, ResolveError> {
    var id := schema.FindType(NameOf(v.varType));
    if id.None? then Failure(UnknownVariableType(NameOf(v.varType)))
    else Success(ResolvedVariable(operation, v.name, v.defaultValue, FieldType(id.value, QualifiersOf(v.varType))))
  }

  function VariablesOf(schema: Schema, operation: nat, vs: seq<VariableDefinition>)
    : Result<seq<ResolvedVariable>, ResolveError>
  {
    if vs == [] then Success([])
    else
      var init :- VariablesOf(schema, operation, vs[..|vs| - 1]);
      var last :- VariableOf(schema, operation, vs[|vs| - 1]);
      Success(init + [last])
  }

  /** The entry a definition's selections go under, and the type they are resolved on. */
  function PlaceOf(schema: Schema, a: Arena, d: Definition): (r: Result<(Parent, TypeId), ResolveError>)
    requires schema.Valid()
    ensures r.Success? ==> HasParent(a, r.value.0) && schema.Has(r.value.1)
  {
    match d
    case Fragment(name, condition, _, _) =>
      var on := schema.FindType(condition);
      if on.None? then Failure(UnknownType(condition))
      else
        var f := FindFragment(a.fragments, name);
        if f.None? then Failure(UnknownFragment(name)) else Success((OfFragment(f.value), on.value))
    case SelectionSet(_) => Failure(SelectionSetAtRoot)
    case Operation(kind, name, _, _, _) =>
      var on := RootType(schema, kind);
      if on.None? then Failure(MissingRoot)
      else if name.None? then Failure(MissingName)
      else
        var o := FindOperation(a.operations, name.value);
        if o.None? then Failure(UnknownOperation) else Success((OfOperation(o.value), ObjectId(on.value)))
  }

  function NewVariables(schema: Schema, place: Parent, d: Definition): Result<seq<ResolvedVariable>, ResolveError> {
    if d.Operation? && place.OfOperation? then VariablesOf(schema, place.id, d.variables) else Success([])
  }

  /** The arena with one definition resolved. */
  function WithDefinition(schema: Schema, a: Arena, d: Definition): Result<Arena, ResolveError>
    requires schema.Valid()
  {
    var place :- PlaceOf(schema, a, d);
    var variables :- NewVariables(schema, place.0, d);
    var laid :- Layout(schema, Heads(a.fragments), place.1, d.selectionSet, place.0, |a.nodes|);
    Success(Grow(a.(variables := a.variables + variables), place.0, laid))
  }

  function WithDefinitions(schema: Schema, a: Arena, defs: seq<Definition>): Result<Arena, ResolveError>
    requires schema.Valid()
  {
    if defs == [] then Success(a)
    else
      var init :- WithDefinitions(schema, a, defs[..|defs| - 1]);
      WithDefinition(schema, init, defs[|defs| - 1])
  }

  const NOTHING: Arena := Arena([], [], [], [], [])

  function Resolved(schema: Schema, doc: Document): Result<Arena, ResolveError>
    requires schema.Valid()
  {
    var roots :- WithRoots(schema, NOTHING, doc.definitions);
    WithDefinitions(schema, roots, doc.definitions)
  }

  lemma {:induction false} RootsFail(schema: Schema, a: Arena, defs: seq<Definition>, i: nat)
    requires i <= |defs| && WithRoots(schema, a, defs[..i]).Failure?
    ensures WithRoots(schema, a, defs) == WithRoots(schema, a, defs[..i])
    decreases |defs|
  {
    if i == |defs| {
      assert defs[..i] == defs;
    } else {
      assert defs[..|defs| - 1][..i] == defs[..i];
      RootsFail(schema, a, defs[..|defs| - 1], i);
    }
  }

  lemma {:induction false} DefinitionsFail(schema: Schema, a: Arena, defs: seq<Definition>, i: nat)
    requires schema.Valid() && i <= |defs| && WithDefinitions(schema, a, defs[..i]).Failure?
    ensures WithDefinitions(schema, a, defs) == WithDefinitions(schema, a, defs[..i])
    decreases |defs|
  {
    if i == |defs| {
      assert defs[..i] == defs;
    } else {
      assert defs[..|defs| - 1][..i] == defs[..i];
      DefinitionsFail(schema, a, defs[..|defs| - 1], i);
    }
  }

  lemma {:induction false} VariablesFail(schema: Schema, operation: nat, vs: seq<VariableDefinition>, i: nat)
    requires i <= |vs| && VariablesOf(schema, operation, vs[..i]).Failure?
    ensures VariablesOf(schema, operation, vs) == VariablesOf(schema, operation, vs[..i])
    decreases |vs|
  {
    if i == |vs| {
      assert vs[..i] == vs;
    } else {
      assert vs[..|vs| - 1][..i] == vs[..i];
      VariablesFail(schema, operation, vs[..|vs| - 1], i);
    }
  }

  // ----- The code -----

  method CreateRoots(query: Resolver.Query, doc: Document, schema: Schema) returns (r: Result<(), ResolveError>)
    requires query.Valid()
    modifies query
    ensures query.Valid()
    ensures match WithRoots(schema, old(query.Abs()), doc.definitions)
            case Failure(e) => r == Failure(e)
            case Success(a) => r == Success(()) && query.Abs() == a
  {
    var defs := doc.definitions;
    ghost var start := query.Abs();
    for i := 0 to |defs|
      invariant query.Valid() && WithRoots(schema, start, defs[..i]) == Success(query.Abs())
    {
      assert defs[..i + 1][..i] == defs[..i];
      var d := defs[i];
      ghost var before := query.Abs();
      assert WithRoots(schema, start, defs[..i + 1]) == WithRoot(schema, before, d);
      if WithRoot(schema, before, d).Failure? {
        RootsFail(schema, start, defs, i + 1);
      }
      match d {
        case Fragment(name, condition, _, _) =>
          var on := schema.FindType(condition);
          if on.None? {
            return Failure(UnknownType(condition));
          }
          query.fragments := query.fragments + [ResolvedFragment(name, on.value, [])];
        case SelectionSet(_) =>
          return Failure(SelectionSetAtRoot);
        case Operation(kind, name, _, _, items) =>
          var on := RootType(schema, kind);
          if on.None? {
            return Failure(MissingRoot);
          }
          if kind.Subscription? && |items| != 1 {
            return Failure(SeveralSubscriptionFields);
          }
          if name.None? {
            return Failure(MissingName);
          }
          query.operations := query.operations + [ResolvedOperation(name.value, kind, on.value, [])];
      }
    }
    assert defs[..|defs|] == defs;
    return Success(());
  }

  method ResolveVariables(query: Resolver.Query, vs: seq<VariableDefinition>, schema: Schema, operation: nat)
    returns (r: Result<(), ResolveError>)
    requires query.Valid()
    modifies query
    ensures query.Valid()
    ensures match VariablesOf(schema, operation, vs)
            case Failure(e) => r == Failure(e)
            case Success(new') =>
              && r == Success(())
              && query.Abs() == old(query.Abs()).(variables := old(query.variables) + new')
  {
    ghost var start := query.Abs();
    ghost var done: seq<ResolvedVariable> := [];
    for i := 0 to |vs|
      invariant query.Valid() && VariablesOf(schema, operation, vs[..i]) == Success(done)
      invariant query.Abs() == start.(variables := start.variables + done)
    {
      assert vs[..i + 1][..i] == vs[..i];
      var name, qualifiers := ResolveQualifiers(vs[i].varType);
      var id := schema.FindType(name);
      if id.None? {
        VariablesFail(schema, operation, vs, i + 1);
        return Failure(UnknownVariableType(name));
      }
      var v := ResolvedVariable(operation, vs[i].name, vs[i].defaultValue, FieldType(id.value, qualifiers));
      query.variables := query.variables + [v];
      done := done + [v];
    }
    assert vs[..|vs|] == vs;
    return Success(());
  }

  /** `resolve_fragment` and `resolve_operation`. */
  method ResolveDefinition(query: Resolver.Query, schema: Schema, d: Definition) returns (r: Result<(), ResolveError>)
    requires query.Valid() && schema.Valid()
    modifies query
    ensures query.Valid()
    ensures match WithDefinition(schema, old(query.Abs()), d)
            case Failure(e) => r == Failure(e)
            case Success(a) => r == Success(()) && query.Abs() == a
  {
    hide Layout, Grow, Heads;
    match d {
      case Fragment(name, condition, _, items) =>
        var on := schema.FindType(condition);
        if on.None? {
          return Failure(UnknownType(condition));
        }
        var f := FindFragment(query.fragments, name);
        if f.None? {
          return Failure(UnknownFragment(name));
        }
        assert query.Abs().(variables := query.Abs().variables + []) == query.Abs();
        r := query.ResolveSelection(schema, on.value, items, OfFragment(f.value));
      case SelectionSet(_) =>
        return Failure(SelectionSetAtRoot);
      case Operation(kind, name, variables, _, items) =>
        var on := RootType(schema, kind);
        if on.None? {
          return Failure(MissingRoot);
        }
        if name.None? {
          return Failure(MissingName);
        }
        var o := FindOperation(query.operations, name.value);
        if o.None? {
          return Failure(UnknownOperation);
        }
        r := ResolveVariables(query, variables, schema, o.value);
        if r.Failure? {
          return;
        }
        r := query.ResolveItems(schema, ObjectId(on.value), items, OfOperation(o.value));
    }
  }

  /** `resolve` up to the checks at its end. */
  method Resolve(schema: Schema, doc: Document) returns (r: Result<Resolver.Query, ResolveError>)
    requires schema.Valid()
    ensures r.Success? ==> fresh(r.value) && r.value.Valid()
    ensures match Resolved(schema, doc)
            case Failure(e) => r == Failure(e)
            case Success(a) => r.Success? && r.value.Abs() == a
  {
    hide WithDefinition;
    var query := new Resolver.Query();
    var roots := CreateRoots(query, doc, schema);
    if roots.Failure? {
      return Failure(roots.error);
    }
    var defs := doc.definitions;
    ghost var start := query.Abs();
    for i := 0 to |defs|
      invariant query.Valid() && WithDefinitions(schema, start, defs[..i]) == Success(query.Abs())
    {
      assert defs[..i + 1][..i] == defs[..i];
      if WithDefinition(schema, query.Abs(), defs[i]).Failure? {
        DefinitionsFail(schema, start, defs, i + 1);
      }
      var one := ResolveDefinition(query, schema, defs[i]);
      if one.Failure? {
        return Failure(one.error);
      }
    }
    assert defs[..|defs|] == defs;
    return Success(query);
  }
}
