/** Which documents `resolve` of crates/codegen/src/query.rs accepts, in terms of the document and the schema. */
module AcceptedQueries {
  import opened Wrappers
  import Ast
  import opened TypeQualifiers
  import opened Schemas
  import opened Arenas
  import opened Resolver
  import opened ArenaShape
  import opened Resolution
  import opened ResolvedDocuments

  // ----- What is accepted -----

  predicate IsFragment(defs: seq<Ast.Definition>, name: string) {
    exists d | d in defs :: d.Fragment? && d.name == name
  }

  function OwnFields(schema: Schema, t: TypeId): seq<nat>
    requires schema.Has(t) && (t.ObjectId? || t.InterfaceId?)
  {
    if t.ObjectId? then schema.objects[t.id].fields else schema.interfaces[t.id].fields
  }

  /** Field number `k` of the list is the first of that name. */
  predicate FirstNamed(schema: Schema, ids: seq<nat>, k: nat, name: string)
    requires forall i | 0 <= i < |ids| :: ids[i] < |schema.fields|
  {
    k < |ids| && schema.fields[ids[k]].name == name && forall i | 0 <= i < k :: schema.fields[ids[i]].name != name
  }

  /**
   Selections on type `t`: none on a leaf; fields that the object or interface has, with
   selections on the type of the field; inline fragments on known types; and spreads of
   fragments of the document.  Only `__typename` can be selected on everything.
   */
  predicate Accepted(schema: Schema, defs: seq<Ast.Definition>, t: TypeId, items: seq<Ast.Selection>)
    requires schema.Valid() && schema.Has(t)
    decreases items, 0
  {
    && (items != [] ==> t.ObjectId? || t.InterfaceId? || t.UnionId?)
    && forall k | 0 <= k < |items| :: AcceptedOne(schema, defs, t, items[k])
  }

  predicate AcceptedOne(schema: Schema, defs: seq<Ast.Definition>, t: TypeId, item: Ast.Selection)
    requires schema.Valid() && schema.Has(t)
    decreases item, 1
  {
    match item
    case Field(_, name, _, _, sub) =>
      || name == "__typename"
      || ((t.ObjectId? || t.InterfaceId?)
          && var ids := OwnFields(schema, t);
             exists k | 0 <= k < |ids| ::
               FirstNamed(schema, ids, k, name) && Accepted(schema, defs, schema.fields[ids[k]].fieldType.id, sub))
    case InlineFragment(condition, _, sub) =>
      condition.Some? && condition.value in schema.names
      && Accepted(schema, defs, schema.names[condition.value], sub)
    case FragmentSpread(name, _) => IsFragment(defs, name)
  }

  predicate DefinitionAccepted(schema: Schema, defs: seq<Ast.Definition>, d: Ast.Definition)
    requires schema.Valid()
  {
    match d
    case Fragment(_, condition, _, items) =>
      condition in schema.names && Accepted(schema, defs, schema.names[condition], items)
    case SelectionSet(_) => false
    case Operation(kind, name, variables, _, items) =>
      && name.Some? && (kind.Subscription? ==> |items| == 1)
      && (forall k | 0 <= k < |variables| :: NameOf(variables[k].varType) in schema.names)
      && exists id | 0 <= id < |schema.objects| ::
           IsRootType(schema, kind, id) && Accepted(schema, defs, ObjectId(id), items)
  }

  // ----- Selections -----

  /** The heads are those of the fragments of the document. */
  ghost predicate HeadsOf(heads: seq<ResolvedFragment>, defs: seq<Ast.Definition>) {
    forall name: string :: FindFragment(heads, name).Some? <==> IsFragment(defs, name)
  }

  lemma FoundIsFirst(schema: Schema, ids: seq<nat>, name: string)
    requires forall i | 0 <= i < |ids| :: ids[i] < |schema.fields|
    ensures FindField(schema, ids, name).None? ==> forall k | 0 <= k < |ids| :: !FirstNamed(schema, ids, k, name)
    ensures FindField(schema, ids, name).Some? ==>
              exists k | 0 <= k < |ids| ::
                FirstNamed(schema, ids, k, name) && ids[k] == FindField(schema, ids, name).value
  {
    if ids != [] && schema.fields[ids[0]].name == name {
      assert FirstNamed(schema, ids, 0, name);
    } else if ids != [] {
      FoundIsFirst(schema, ids[1..], name);
      assert forall i | 0 < i < |ids| :: ids[i] == ids[1..][i - 1];
      if FindField(schema, ids, name).Some? {
        var k :| && 0 <= k < |ids| - 1 && FirstNamed(schema, ids[1..], k, name)
                 && ids[1..][k] == FindField(schema, ids, name).value;
        assert FirstNamed(schema, ids, k + 1, name);
      }
    }
  }

  lemma FirstIsOne(schema: Schema, ids: seq<nat>, k: nat, i: nat, name: string)
    requires forall i | 0 <= i < |ids| :: ids[i] < |schema.fields|
    requires FirstNamed(schema, ids, k, name) && FirstNamed(schema, ids, i, name)
    ensures k == i
  {
  }

  lemma {:induction false} LaidExactlyWhen(schema: Schema, heads: seq<ResolvedFragment>, defs: seq<Ast.Definition>,
                                           on: TypeId, items: seq<Ast.Selection>, p: Parent, base: nat)
    requires schema.Valid() && schema.Has(on) && HeadsOf(heads, defs)
    ensures Layout(schema, heads, on, items, p, base).Success? <==> Accepted(schema, defs, on, items)
    decreases items, 0
  {
    hide Layout, LayoutOne, AcceptedOne, HeadsOf, Schema.Valid;
    if items == [] {
      LayoutNothing(schema, heads, on, p, base);
    } else if schema.IsComposite(on) {
      LayoutMore(schema, heads, on, items, p, base);
      var init, last := items[..|items| - 1], items[|items| - 1];
      var before := Layout(schema, heads, on, init, p, base);
      LaidExactlyWhen(schema, heads, defs, on, init, p, base);
      if before.Success? {
        OneLaidExactlyWhen(schema, heads, defs, on, last, p, base + |before.value.nodes|);
      }
      assert Accepted(schema, defs, on, items) <==>
             Accepted(schema, defs, on, init) && AcceptedOne(schema, defs, on, last);
    } else {
      LeafLaysNothing(schema, heads, on, items, p, base);
    }
  }

  lemma LeafLaysNothing(schema: Schema, heads: seq<ResolvedFragment>, on: TypeId, items: seq<Ast.Selection>, p: Parent,
                        base: nat)
    requires schema.Valid() && schema.Has(on) && !schema.IsComposite(on) && items != []
    ensures Layout(schema, heads, on, items, p, base).Failure?
  {
  }

  lemma {:induction false} OneLaidExactlyWhen(schema: Schema, heads: seq<ResolvedFragment>, defs: seq<Ast.Definition>,
                                              on: TypeId, item: Ast.Selection, p: Parent, base: nat)
    requires schema.Valid() && schema.Has(on) && schema.IsComposite(on) && HeadsOf(heads, defs)
    ensures LayoutOne(schema, heads, on, item, p, base).Success? <==> AcceptedOne(schema, defs, on, item)
    decreases item, 1
  {
    hide Layout, Accepted;
    match item
    case Field(_, name, _, _, sub) =>
      if name != "__typename" && !on.UnionId? {
        var ids := OwnFields(schema, on);
        FoundIsFirst(schema, ids, name);
        var f := FindField(schema, ids, name);
        if f.Some? {
          LaidExactlyWhen(schema, heads, defs, schema.fields[f.value].fieldType.id, sub, OfField(base), base + 1);
          var k :| 0 <= k < |ids| && FirstNamed(schema, ids, k, name) && ids[k] == f.value;
          forall i | 0 <= i < |ids| && FirstNamed(schema, ids, i, name) ensures i == k {
            FirstIsOne(schema, ids, k, i, name);
          }
        }
      }
    case InlineFragment(condition, _, sub) =>
      if condition.Some? && condition.value in schema.names {
        LaidExactlyWhen(schema, heads, defs, schema.names[condition.value], sub, OfInlineFragment(base), base + 1);
      }
    case FragmentSpread(_, _) =>
  }

  // ----- Definitions -----

  /** What entering a definition demands of it. */
  predicate RootAccepted(schema: Schema, d: Ast.Definition) {
    match d
    case Fragment(_, condition, _, _) => condition in schema.names
    case SelectionSet(_) => false
    case Operation(kind, name, _, _, items) =>
      && name.Some? && (kind.Subscription? ==> |items| == 1)
      && exists id | 0 <= id < |schema.objects| :: IsRootType(schema, kind, id)
  }

  lemma {:induction false} RootsExactlyWhen(schema: Schema, a: Arena, defs: seq<Ast.Definition>)
    requires schema.Valid()
    ensures WithRoots(schema, a, defs).Success? <==> forall i | 0 <= i < |defs| :: RootAccepted(schema, defs[i])
  {
    hide WithRoot, RootAccepted, Schema.Valid;
    if defs != [] {
      var init, last := defs[..|defs| - 1], defs[|defs| - 1];
      RootsExactlyWhen(schema, a, init);
      if WithRoots(schema, a, init).Success? {
        RootExactlyWhen(schema, WithRoots(schema, a, init).value, last);
      }
      assert forall i | 0 <= i < |init| :: init[i] == defs[i];
    }
  }

  lemma RootExactlyWhen(schema: Schema, a: Arena, d: Ast.Definition)
    requires schema.Valid()
    ensures WithRoot(schema, a, d).Success? <==> RootAccepted(schema, d)
  {
    if d.Operation? && RootType(schema, d.kind).Some? {
      assert IsRootType(schema, d.kind, RootType(schema, d.kind).value);
    }
  }

  lemma {:induction false} VariablesExactlyWhen(schema: Schema, operation: nat, vs: seq<Ast.VariableDefinition>)
    ensures VariablesOf(schema, operation, vs).Success? <==>
            forall k | 0 <= k < |vs| :: NameOf(vs[k].varType) in schema.names
  {
    if vs != [] {
      VariablesExactlyWhen(schema, operation, vs[..|vs| - 1]);
    }
  }

  lemma {:induction false} ListedFragments(defs: seq<Ast.Definition>, d: Ast.Definition)
    ensures d in Fragments(defs) <==> d in defs && d.Fragment?
    ensures d in Operations(defs) <==> d in defs && d.Operation?
  {
    if defs != [] {
      ListedFragments(defs[..|defs| - 1], d);
      assert forall e :: e in defs <==> e in defs[..|defs| - 1] || e == defs[|defs| - 1];
    }
  }

  /** The entries are those of the document. */
  lemma EntriesAreFound(schema: Schema, a: Arena, defs: seq<Ast.Definition>)
    requires Entered(schema, a, defs)
    ensures HeadsOf(Heads(a.fragments), defs)
    ensures forall d | d in defs && d.Fragment? :: FindFragment(a.fragments, d.name).Some?
    ensures forall d | d in defs && d.Operation? && d.opName.Some? :: FindOperation(a.operations, d.opName.value).Some?
  {
    var fs, os := Fragments(defs), Operations(defs);
    forall d ensures (d in fs <==> d in defs && d.Fragment?) && (d in os <==> d in defs && d.Operation?) {
      ListedFragments(defs, d);
    }
    hide Fragments, Operations;
    forall name: string
      ensures FindFragment(Heads(a.fragments), name).Some? <==> IsFragment(defs, name)
      ensures FindFragment(a.fragments, name).Some? <==> IsFragment(defs, name)
    {
      SameHeads(a.fragments, name);
      NamedFragments(schema, a, defs, fs, name);
    }
    forall d | d in os && d.opName.Some? ensures FindOperation(a.operations, d.opName.value).Some? {
      var i: nat :| i < |os| && os[i] == d;
      assert OperationEntered(schema, a.operations[i], os[i]);
    }
  }

  lemma NamedFragments(schema: Schema, a: Arena, defs: seq<Ast.Definition>, fs: seq<Ast.Definition>, name: string)
    requires |a.fragments| == |fs| && forall d :: d in fs <==> d in defs && d.Fragment?
    requires forall i | 0 <= i < |fs| :: fs[i] in fs && FragmentEntered(schema, a.fragments[i], fs[i])
    ensures FindFragment(a.fragments, name).Some? <==> IsFragment(defs, name)
  {
    if d :| d in defs && d.Fragment? && d.name == name {
      var i: nat :| i < |fs| && fs[i] == d;
      assert a.fragments[i].name == name;
    }
    var r := FindFragment(a.fragments, name);
    if r.Some? {
      assert fs[r.value] in defs && fs[r.value].name == name;
    }
  }

  lemma DefinitionExactlyWhen(schema: Schema, a: Arena, defs: seq<Ast.Definition>, d: Ast.Definition)
    requires schema.Valid() && Entered(schema, a, defs) && d in defs && RootAccepted(schema, d)
    ensures WithDefinition(schema, a, d).Success? <==> DefinitionAccepted(schema, defs, d)
  {
    hide Layout, Accepted, Entered, Heads, HeadsOf, Grow;
    EntriesAreFound(schema, a, defs);
    var place := PlaceOf(schema, a, d).value;
    LaidExactlyWhen(schema, Heads(a.fragments), defs, place.1, d.selectionSet, place.0, |a.nodes|);
    if d.Operation? {
      VariablesExactlyWhen(schema, place.0.id, d.variables);
    }
  }

  lemma {:induction false} DefinitionsExactlyWhen(schema: Schema, roots: Arena, defs: seq<Ast.Definition>, n: nat)
    requires schema.Valid() && n <= |defs| && WithRoots(schema, NOTHING, defs) == Success(roots)
    requires forall i | 0 <= i < |defs| :: RootAccepted(schema, defs[i])
    ensures WithDefinitions(schema, roots, defs[..n]).Success? <==>
            forall i | 0 <= i < n :: DefinitionAccepted(schema, defs, defs[i])
    decreases n
  {
    hide WithDefinition, DefinitionAccepted, WithRoots, RootAccepted, Entered, Shaped, UniquelyNamed;
    if n > 0 {
      assert defs[..n][..n - 1] == defs[..n - 1];
      DefinitionsExactlyWhen(schema, roots, defs, n - 1);
      var before := WithDefinitions(schema, roots, defs[..n - 1]);
      if before.Success? {
        EveryResolvedArenaIsShaped(schema, roots, defs, n - 1, false);
        DefinitionExactlyWhen(schema, before.value, defs, defs[n - 1]);
      }
    }
  }

  /**
   Documents are resolved, up to the checks at the end, exactly when every definition is
   accepted: fragments on known types, and named operations of kinds that the schema has a
   type for, each with variables of known types and selections that its type accepts.
   */
  lemma {:induction false} ResolvedExactlyWhen(schema: Schema, doc: Ast.Document)
    requires schema.Valid()
    ensures Resolved(schema, doc).Success? <==>
            forall i | 0 <= i < |doc.definitions| :: DefinitionAccepted(schema, doc.definitions, doc.definitions[i])
  {
    var defs := doc.definitions;
    RootsExactlyWhen(schema, NOTHING, defs);
    assert forall i | 0 <= i < |defs| :: DefinitionAccepted(schema, defs, defs[i]) ==> RootAccepted(schema, defs[i]);
    hide WithRoots, WithDefinitions, DefinitionAccepted, RootAccepted;
    assert defs[..|defs|] == defs;
    if WithRoots(schema, NOTHING, defs).Success? {
      DefinitionsExactlyWhen(schema, WithRoots(schema, NOTHING, defs).value, defs, |defs|);
    }
  }
}
