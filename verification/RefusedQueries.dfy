/** Which error `resolve` of crates/codegen/src/query.rs returns for a document that it refuses: the first in order. */
module RefusedQueries {
  import opened Wrappers
  import Ast
  import opened TypeQualifiers
  import opened Schemas
  import opened Arenas
  import opened Resolver
  import opened ArenaShape
  import opened Resolution
  import opened ResolvedDocuments
  import opened AcceptedQueries

  // ----- What is wrong -----

  /** The first selection that is not accepted is refused with `e`, or they are all on a leaf. */
  predicate Refused(schema: Schema, defs: seq<Ast.Definition>, t: TypeId, items: seq<Ast.Selection>, e: ResolveError)
    requires schema.Valid() && schema.Has(t)
    decreases items, 0
  {
    if t.ObjectId? || t.InterfaceId? || t.UnionId? then
      exists k | 0 <= k < |items| ::
        && RefusedOne(schema, defs, t, items[k], e)
        && forall i | 0 <= i < k :: AcceptedOne(schema, defs, t, items[i])
    else items != [] && e == SelectionOnLeaf
  }

  predicate RefusedOne(schema: Schema, defs: seq<Ast.Definition>, t: TypeId, item: Ast.Selection, e: ResolveError)
    requires schema.Valid() && schema.Has(t) && (t.ObjectId? || t.InterfaceId? || t.UnionId?)
    decreases item, 1
  {
    match item
    case Field(_, name, _, _, sub) =>
      && name != "__typename"
      && if t.UnionId? then e == FieldOnUnion
         else
           var ids := OwnFields(schema, t);
           || (e == UnknownField(name) && forall k | 0 <= k < |ids| :: schema.fields[ids[k]].name != name)
           || exists k | 0 <= k < |ids| ::
                FirstNamed(schema, ids, k, name) && Refused(schema, defs, schema.fields[ids[k]].fieldType.id, sub, e)
    case InlineFragment(condition, _, sub) =>
      if condition.None? then e == MissingTypeCondition
      else if condition.value !in schema.names then e == UnknownType(condition.value)
      else Refused(schema, defs, schema.names[condition.value], sub, e)
    case FragmentSpread(name, _) => !IsFragment(defs, name) && e == UnknownFragment(name)
  }

  /** Entering the definition fails. */
  predicate RootRefused(schema: Schema, d: Ast.Definition, e: ResolveError) {
    match d
    case Fragment(_, condition, _, _) => condition !in schema.names && e == UnknownType(condition)
    case SelectionSet(_) => e == SelectionSetAtRoot
    case Operation(kind, name, _, _, items) =>
      if forall id | 0 <= id < |schema.objects| :: !IsRootType(schema, kind, id) then e == MissingRoot
      else if kind.Subscription? && |items| != 1 then e == SeveralSubscriptionFields
      else name.None? && e == MissingName
  }

  /** It can be entered, and then the first variable of an unknown type or the selections are refused. */
  predicate DefinitionRefused(schema: Schema, defs: seq<Ast.Definition>, d: Ast.Definition, e: ResolveError)
    requires schema.Valid()
  {
    match d
    case Fragment(_, condition, _, items) =>
      condition in schema.names && Refused(schema, defs, schema.names[condition], items, e)
    case SelectionSet(_) => false
    case Operation(kind, _, variables, _, items) =>
      if exists k | 0 <= k < |variables| :: NameOf(variables[k].varType) !in schema.names then
        exists k | 0 <= k < |variables| ::
          && e == UnknownVariableType(NameOf(variables[k].varType))
          && NameOf(variables[k].varType) !in schema.names
          && forall i | 0 <= i < k :: NameOf(variables[i].varType) in schema.names
      else
        exists id | 0 <= id < |schema.objects| ::
          IsRootType(schema, kind, id) && Refused(schema, defs, ObjectId(id), items, e)
  }

  // ----- The error is the first one -----

  lemma {:induction false} LaidRefused(schema: Schema, heads: seq<ResolvedFragment>, defs: seq<Ast.Definition>,
                                       on: TypeId, items: seq<Ast.Selection>, p: Parent, base: nat)
    requires schema.Valid() && schema.Has(on) && HeadsOf(heads, defs)
    requires Layout(schema, heads, on, items, p, base).Failure?
    ensures Refused(schema, defs, on, items, Layout(schema, heads, on, items, p, base).error)
    decreases items, 0
  {
    hide Layout, LayoutOne, AcceptedOne, RefusedOne, HeadsOf, Schema.Valid;
    if items == [] {
      LayoutNothing(schema, heads, on, p, base);
    } else if schema.IsComposite(on) {
      LayoutMore(schema, heads, on, items, p, base);
      var init, last := items[..|items| - 1], items[|items| - 1];
      var before := Layout(schema, heads, on, init, p, base);
      if before.Success? {
        OneLaidRefused(schema, heads, defs, on, last, p, base + |before.value.nodes|);
        LaidExactlyWhen(schema, heads, defs, on, init, p, base);
        assert items[|items| - 1] == last && forall i | 0 <= i < |init| :: items[i] == init[i];
      } else {
        LaidRefused(schema, heads, defs, on, init, p, base);
        assert forall i | 0 <= i < |init| :: items[i] == init[i];
      }
    } else {
      LeafIsRefused(schema, heads, on, items, p, base);
    }
  }

  lemma LeafIsRefused(schema: Schema, heads: seq<ResolvedFragment>, on: TypeId, items: seq<Ast.Selection>, p: Parent,
                      base: nat)
    requires schema.Valid() && schema.Has(on) && !schema.IsComposite(on) && items != []
    ensures Layout(schema, heads, on, items, p, base) == Failure(SelectionOnLeaf)
  {
  }

  lemma {:induction false} OneLaidRefused(schema: Schema, heads: seq<ResolvedFragment>, defs: seq<Ast.Definition>,
                                          on: TypeId, item: Ast.Selection, p: Parent, base: nat)
    requires schema.Valid() && schema.Has(on) && schema.IsComposite(on) && HeadsOf(heads, defs)
    requires LayoutOne(schema, heads, on, item, p, base).Failure?
    ensures RefusedOne(schema, defs, on, item, LayoutOne(schema, heads, on, item, p, base).error)
    decreases item, 1
  {
    hide Layout, Refused;
    match item
    case Field(_, name, _, _, sub) =>
      if name != "__typename" && !on.UnionId? {
        var ids := OwnFields(schema, on);
        FoundIsFirst(schema, ids, name);
        var f := FindField(schema, ids, name);
        if f.Some? {
          LaidRefused(schema, heads, defs, schema.fields[f.value].fieldType.id, sub, OfField(base), base + 1);
        } else {
          NoneIsNamed(schema, ids, name);
        }
      }
    case InlineFragment(condition, _, sub) =>
      if condition.Some? && condition.value in schema.names {
        LaidRefused(schema, heads, defs, schema.names[condition.value], sub, OfInlineFragment(base), base + 1);
      }
    case FragmentSpread(_, _) =>
  }

  lemma {:induction false} NoneIsNamed(schema: Schema, ids: seq<nat>, name: string)
    requires forall i | 0 <= i < |ids| :: ids[i] < |schema.fields|
    requires FindField(schema, ids, name).None?
    ensures forall k | 0 <= k < |ids| :: schema.fields[ids[k]].name != name
  {
    if ids != [] {
      NoneIsNamed(schema, ids[1..], name);
      assert forall i | 0 < i < |ids| :: ids[i] == ids[1..][i - 1];
    }
  }

  // ----- Definitions -----

  lemma RootIsRefused(schema: Schema, a: Arena, d: Ast.Definition)
    requires schema.Valid() && WithRoot(schema, a, d).Failure?
    ensures RootRefused(schema, d, WithRoot(schema, a, d).error)
  {
    if d.Operation? && RootType(schema, d.kind).Some? {
      assert IsRootType(schema, d.kind, RootType(schema, d.kind).value);
    }
  }

  lemma {:induction false} RootsRefused(schema: Schema, a: Arena, defs: seq<Ast.Definition>)
    requires schema.Valid() && WithRoots(schema, a, defs).Failure?
    ensures exists i | 0 <= i < |defs| ::
              && RootRefused(schema, defs[i], WithRoots(schema, a, defs).error)
              && forall j | 0 <= j < i :: RootAccepted(schema, defs[j])
  {
    hide WithRoot, RootAccepted, RootRefused, Schema.Valid;
    var init, last := defs[..|defs| - 1], defs[|defs| - 1];
    assert forall i | 0 <= i < |init| :: init[i] == defs[i];
    if WithRoots(schema, a, init).Failure? {
      RootsRefused(schema, a, init);
    } else {
      RootsExactlyWhen(schema, a, init);
      RootIsRefused(schema, WithRoots(schema, a, init).value, last);
    }
  }

  lemma {:induction false} VariablesRefused(schema: Schema, operation: nat, vs: seq<Ast.VariableDefinition>)
    requires VariablesOf(schema, operation, vs).Failure?
    ensures exists k | 0 <= k < |vs| ::
              && VariablesOf(schema, operation, vs).error == UnknownVariableType(NameOf(vs[k].varType))
              && NameOf(vs[k].varType) !in schema.names
              && forall i | 0 <= i < k :: NameOf(vs[i].varType) in schema.names
  {
    var init := vs[..|vs| - 1];
    assert forall i | 0 <= i < |init| :: init[i] == vs[i];
    if VariablesOf(schema, operation, init).Failure? {
      VariablesRefused(schema, operation, init);
    } else {
      VariablesExactlyWhen(schema, operation, init);
    }
  }

  lemma DefinitionIsRefused(schema: Schema, a: Arena, defs: seq<Ast.Definition>, d: Ast.Definition)
    requires schema.Valid() && Entered(schema, a, defs) && d in defs && RootAccepted(schema, d)
    requires WithDefinition(schema, a, d).Failure?
    ensures DefinitionRefused(schema, defs, d, WithDefinition(schema, a, d).error)
  {
    hide Layout, Refused, Entered, Heads, HeadsOf, Grow;
    EntriesAreFound(schema, a, defs);
    var place := PlaceOf(schema, a, d).value;
    if d.Operation? {
      VariablesExactlyWhen(schema, place.0.id, d.variables);
      if VariablesOf(schema, place.0.id, d.variables).Failure? {
        VariablesRefused(schema, place.0.id, d.variables);
      }
    }
    if Layout(schema, Heads(a.fragments), place.1, d.selectionSet, place.0, |a.nodes|).Failure? {
      LaidRefused(schema, Heads(a.fragments), defs, place.1, d.selectionSet, place.0, |a.nodes|);
    }
  }

  lemma {:induction false} DefinitionsRefused(schema: Schema, roots: Arena, defs: seq<Ast.Definition>, n: nat)
    requires schema.Valid() && n <= |defs| && WithRoots(schema, NOTHING, defs) == Success(roots)
    requires forall i | 0 <= i < |defs| :: RootAccepted(schema, defs[i])
    requires WithDefinitions(schema, roots, defs[..n]).Failure?
    ensures exists i | 0 <= i < n ::
              && DefinitionRefused(schema, defs, defs[i], WithDefinitions(schema, roots, defs[..n]).error)
              && forall j | 0 <= j < i :: DefinitionAccepted(schema, defs, defs[j])
    decreases n
  {
    hide WithDefinition, DefinitionAccepted, DefinitionRefused, WithRoots, RootAccepted, Entered, Shaped, UniquelyNamed;
    assert defs[..n][..n - 1] == defs[..n - 1];
    var before := WithDefinitions(schema, roots, defs[..n - 1]);
    if before.Failure? {
      DefinitionsRefused(schema, roots, defs, n - 1);
    } else {
      DefinitionsExactlyWhen(schema, roots, defs, n - 1);
      EveryResolvedArenaIsShaped(schema, roots, defs, n - 1, false);
      DefinitionIsRefused(schema, before.value, defs, defs[n - 1]);
    }
  }

  /**
   When a document is refused, the error is that of the first definition that cannot be
   entered or, when all can, of the first whose variables or selections are refused.
   */
  lemma ErrorIsTheFirst(schema: Schema, doc: Ast.Document)
    requires schema.Valid() && Resolved(schema, doc).Failure?
    ensures var defs, e := doc.definitions, Resolved(schema, doc).error;
            || (exists i | 0 <= i < |defs| ::
                  RootRefused(schema, defs[i], e) && forall j | 0 <= j < i :: RootAccepted(schema, defs[j]))
            || ((forall i | 0 <= i < |defs| :: RootAccepted(schema, defs[i]))
                && exists i | 0 <= i < |defs| ::
                     && DefinitionRefused(schema, defs, defs[i], e)
                     && forall j | 0 <= j < i :: DefinitionAccepted(schema, defs, defs[j]))
  {
    var defs := doc.definitions;
    hide WithRoots, WithDefinitions, DefinitionAccepted, DefinitionRefused, RootAccepted, RootRefused;
    assert defs[..|defs|] == defs;
    var roots := WithRoots(schema, NOTHING, defs);
    if roots.Failure? {
      RootsRefused(schema, NOTHING, defs);
    } else {
      RootsExactlyWhen(schema, NOTHING, defs);
      DefinitionsRefused(schema, roots.value, defs, |defs|);
    }
  }
}
