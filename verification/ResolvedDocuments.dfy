/** What `resolve` of crates/codegen/src/query.rs promises of whole documents. */
module ResolvedDocuments {
  import opened Wrappers
  import Ast
  import opened Schemas
  import opened Arenas
  import opened ArenaShape
  import opened Resolution
  import opened ReadBack

  // ----- Fragments and operations in document order -----

  function Fragments(defs: seq<Ast.Definition>): (fs: seq<Ast.Definition>)
    ensures forall d | d in fs :: d.Fragment?
  {
    if defs == [] then []
    else
      var last := defs[|defs| - 1];
      Fragments(defs[..|defs| - 1]) + if last.Fragment? then [last] else []
  }

  function Operations(defs: seq<Ast.Definition>): (os: seq<Ast.Definition>)
    ensures forall d | d in os :: d.Operation?
  {
    if defs == [] then []
    else
      var last := defs[|defs| - 1];
      Operations(defs[..|defs| - 1]) + if last.Operation? then [last] else []
  }

  /** As sections 5.2.1.1 and 5.5.1.1 of the GraphQL specification (June 2018) demand; `resolve` does not check it. */
  predicate UniquelyNamed(defs: seq<Ast.Definition>) {
    var fs, os := Fragments(defs), Operations(defs);
    && (forall i, j | 0 <= i < j < |fs| :: fs[i].name != fs[j].name)
    && (forall i, j | 0 <= i < j < |os| :: os[i].opName != os[j].opName)
  }

  lemma {:induction false} PrefixOf(defs: seq<Ast.Definition>, n: nat)
    requires n <= |defs|
    ensures Fragments(defs[..n]) <= Fragments(defs) && Operations(defs[..n]) <= Operations(defs)
    decreases |defs|
  {
    if n < |defs| {
      assert defs[..|defs| - 1][..n] == defs[..n];
      PrefixOf(defs[..|defs| - 1], n);
    } else {
      assert defs[..n] == defs;
    }
  }

  /** A definition stands among those of its kind after the ones before it. */
  lemma InOrder(defs: seq<Ast.Definition>, n: nat)
    requires n < |defs|
    ensures var i, o := |Fragments(defs[..n])|, |Operations(defs[..n])|;
            && Fragments(defs[..n + 1]) == Fragments(defs[..n]) + (if defs[n].Fragment? then [defs[n]] else [])
            && Operations(defs[..n + 1]) == Operations(defs[..n]) + (if defs[n].Operation? then [defs[n]] else [])
            && i <= |Fragments(defs)| && o <= |Operations(defs)|
            && (defs[n].Fragment? ==> i < |Fragments(defs)| && Fragments(defs)[i] == defs[n])
            && (defs[n].Operation? ==> o < |Operations(defs)| && Operations(defs)[o] == defs[n])
  {
    assert defs[..n + 1][..n] == defs[..n];
    PrefixOf(defs, n + 1);
  }

  // ----- Entries -----

  predicate FragmentEntered(schema: Schema, f: ResolvedFragment, d: Ast.Definition)
    requires d.Fragment?
  {
    f.name == d.name && schema.FindType(d.typeCondition) == Some(f.on)
  }

  /** Queries are on the query type of the schema, mutations on its mutation type, and so on. */
  predicate IsRootType(schema: Schema, kind: Ast.OperationType, id: nat) {
    match kind
    case Query => schema.queryType == Some(id)
    case Mutation => schema.mutationType == Some(id)
    case Subscription => schema.subscriptionType == Some(id)
  }

  predicate OperationEntered(schema: Schema, o: ResolvedOperation, d: Ast.Definition)
    requires d.Operation?
  {
    d.opName == Some(o.name) && o.kind == d.kind && IsRootType(schema, o.kind, o.objectId)
  }

  /** There is an entry for every fragment and operation, in order. */
  predicate Entered(schema: Schema, a: Arena, defs: seq<Ast.Definition>) {
    var fs, os := Fragments(defs), Operations(defs);
    && |a.fragments| == |fs| && |a.operations| == |os|
    && (forall i | 0 <= i < |fs| :: fs[i] in fs && FragmentEntered(schema, a.fragments[i], fs[i]))
    && (forall i | 0 <= i < |os| :: os[i] in os && OperationEntered(schema, a.operations[i], os[i]))
  }

  /** Entries still without selections, from the given numbers on. */
  predicate EmptyFrom(a: Arena, f: nat, o: nat) {
    && (forall i | f <= i < |a.fragments| :: a.fragments[i].selectionSet == [])
    && (forall i | o <= i < |a.operations| :: a.operations[i].selectionSet == [])
  }

  lemma {:induction false} RootsAreEntered(schema: Schema, defs: seq<Ast.Definition>)
    requires schema.Valid() && WithRoots(schema, NOTHING, defs).Success?
    ensures var a := WithRoots(schema, NOTHING, defs).value;
            Entered(schema, a, defs) && EmptyFrom(a, 0, 0) && a.nodes == [] && a.parents == [] && a.variables == []
  {
    if defs != [] {
      RootsAreEntered(schema, defs[..|defs| - 1]);
    }
  }

  lemma EnteredInRange(schema: Schema, a: Arena, defs: seq<Ast.Definition>)
    requires schema.Valid() && Entered(schema, a, defs)
    ensures RootsInRange(schema, a)
  {
    var fs, os := Fragments(defs), Operations(defs);
    forall i | 0 <= i < |a.fragments| ensures schema.Has(a.fragments[i].on) {
      assert FragmentEntered(schema, a.fragments[i], fs[i]);
    }
    forall i | 0 <= i < |a.operations| ensures a.operations[i].objectId < |schema.objects| {
      assert OperationEntered(schema, a.operations[i], os[i]);
    }
  }

  /** With unique names, a definition's selections go under its own entry, on the type of that entry. */
  lemma PlaceIsOwn(schema: Schema, a: Arena, defs: seq<Ast.Definition>, n: nat)
    requires schema.Valid() && n < |defs| && Entered(schema, a, defs) && UniquelyNamed(defs)
    requires PlaceOf(schema, a, defs[n]).Success? && RootsInRange(schema, a)
    ensures var (p, on) := PlaceOf(schema, a, defs[n]).value;
            && KnownParent(schema, a, p) && on == TypeOfParent(schema, a, p)
            && p == if defs[n].Fragment? then OfFragment(|Fragments(defs[..n])|)
                    else OfOperation(|Operations(defs[..n])|)
  {
    InOrder(defs, n);
    var fs, os := Fragments(defs), Operations(defs);
    var i, o := |Fragments(defs[..n])|, |Operations(defs[..n])|;
    match defs[n]
    case Fragment(name, _, _, _) =>
      var f := FindFragment(a.fragments, name).value;
      assert FragmentEntered(schema, a.fragments[i], fs[i]) && FragmentEntered(schema, a.fragments[f], fs[f]);
    case Operation(_, name, _, _, _) =>
      var f := FindOperation(a.operations, name.value).value;
      assert OperationEntered(schema, a.operations[o], os[o]) && OperationEntered(schema, a.operations[f], os[f]);
  }

  /** The entries but for their selections. */
  predicate SameEntries(a: Arena, b: Arena) {
    && |a.fragments| == |b.fragments| && |a.operations| == |b.operations|
    && (forall i | 0 <= i < |a.fragments| ::
          b.fragments[i].name == a.fragments[i].name && b.fragments[i].on == a.fragments[i].on)
    && (forall i | 0 <= i < |a.operations| ::
         b.operations[i] == a.operations[i].(selectionSet := b.operations[i].selectionSet))
  }

  lemma EnteredStays(schema: Schema, a: Arena, b: Arena, defs: seq<Ast.Definition>)
    requires Entered(schema, a, defs) && SameEntries(a, b)
    ensures Entered(schema, b, defs)
  {
    var fs, os := Fragments(defs), Operations(defs);
    forall i | 0 <= i < |fs| ensures FragmentEntered(schema, b.fragments[i], fs[i]) {
      assert FragmentEntered(schema, a.fragments[i], fs[i]);
    }
    forall i | 0 <= i < |os| ensures OperationEntered(schema, b.operations[i], os[i]) {
      assert OperationEntered(schema, a.operations[i], os[i]);
    }
  }

  /** Growing under a root: only the children of that root change, the new ones come last. */
  lemma RootGrows(a: Arena, p: Parent, l: Laid)
    requires IsRoot(p) && HasParent(a, p) && |a.nodes| == |a.parents| && |l.nodes| == |l.parents|
    ensures var b := Grow(a, p, l);
            && SameEntries(a, b) && HasParent(b, p)
            && Heads(b.fragments) == Heads(a.fragments) && |Heads(a.fragments)| == |b.fragments|
            && a.nodes <= b.nodes && Stands(b, l, |a.nodes|)
            && ChildrenOf(b, p) == ChildrenOf(a, p) + l.ids
            && (forall i | 0 <= i < |a.fragments| :: p != OfFragment(i) ==> b.fragments[i] == a.fragments[i])
            && (forall i | 0 <= i < |a.operations| :: p != OfOperation(i) ==> b.operations[i] == a.operations[i])
  {
  }

  /** What resolving one definition lays, and where. */
  lemma DefinitionLays(schema: Schema, a: Arena, d: Ast.Definition) returns (p: Parent, on: TypeId, l: Laid)
    requires schema.Valid() && WithDefinition(schema, a, d).Success?
    ensures PlaceOf(schema, a, d) == Success((p, on)) && IsRoot(p) && HasParent(a, p) && schema.Has(on)
    ensures Layout(schema, Heads(a.fragments), on, d.selectionSet, p, |a.nodes|) == Success(l)
    ensures |l.nodes| == |l.parents| && NewVariables(schema, p, d).Success?
    ensures var variables := a.variables + NewVariables(schema, p, d).value;
            WithDefinition(schema, a, d).value == Grow(a.(variables := variables), p, l)
  {
    hide Layout, Grow, NewVariables;
    var place := PlaceOf(schema, a, d).value;
    p, on := place.0, place.1;
    l := Layout(schema, Heads(a.fragments), on, d.selectionSet, p, |a.nodes|).value;
  }

  /** One definition more keeps the shape. */
  lemma DefinitionKeepsShape(schema: Schema, a: Arena, defs: seq<Ast.Definition>, n: nat, typed: bool)
    requires schema.Valid() && n < |defs| && Entered(schema, a, defs) && (typed ==> UniquelyNamed(defs))
    requires Shaped(schema, a, typed) && WithDefinition(schema, a, defs[n]).Success?
    ensures Entered(schema, WithDefinition(schema, a, defs[n]).value, defs)
    ensures Shaped(schema, WithDefinition(schema, a, defs[n]).value, typed)
  {
    hide Layout, PlaceOf, Entered, WithDefinition, Stands, Grow, Heads, UniquelyNamed, RootsInRange, LinkedUp,
         LinkedDown, Fits;
    var p, on, l := DefinitionLays(schema, a, defs[n]);
    var start := a.(variables := a.variables + NewVariables(schema, p, defs[n]).value);
    var b := Grow(start, p, l);
    RootGrows(start, p, l);
    EnteredStays(schema, a, b, defs);
    EnteredInRange(schema, a, defs);
    if typed {
      PlaceIsOwn(schema, a, defs, n);
    }
    VariablesDoNotMatter(schema, a, start.variables, typed);
    LayoutIsRegion(schema, Heads(a.fragments), b, on, defs[n].selectionSet, p, |a.nodes|);
    GrowKeepsShape(schema, start, p, on, l, typed);
  }

  lemma VariablesDoNotMatter(schema: Schema, a: Arena, variables: seq<ResolvedVariable>, typed: bool)
    requires schema.Valid() && Shaped(schema, a, typed)
    ensures Shaped(schema, a.(variables := variables), typed)
  {
    hide Fits;
    var b := a.(variables := variables);
    forall k: nat | k < |b.nodes| ensures LinkedUp(schema, b, k, typed) {
      assert LinkedUp(schema, a, k, typed);
    }
    forall p | HasParent(b, p) ensures LinkedDown(b, p) {
      assert HasParent(a, p) && LinkedDown(a, p);
    }
  }

  /** The shape holds after every definition. */
  lemma {:induction false} EveryResolvedArenaIsShaped(schema: Schema, roots: Arena, defs: seq<Ast.Definition>,
                                                      n: nat, typed: bool)
    requires schema.Valid() && n <= |defs| && (typed ==> UniquelyNamed(defs))
    requires WithRoots(schema, NOTHING, defs) == Success(roots)
    requires WithDefinitions(schema, roots, defs[..n]).Success?
    ensures var a := WithDefinitions(schema, roots, defs[..n]).value;
            Entered(schema, a, defs) && Shaped(schema, a, typed)
    decreases n
  {
    hide WithDefinition, Entered, WithRoots, UniquelyNamed;
    if n == 0 {
      RootsAreEntered(schema, defs);
      EnteredInRange(schema, roots, defs);
      EmptyIsShaped(schema, roots, typed);
    } else {
      assert defs[..n][..n - 1] == defs[..n - 1];
      EveryResolvedArenaIsShaped(schema, roots, defs, n - 1, typed);
      DefinitionKeepsShape(schema, WithDefinitions(schema, roots, defs[..n - 1]).value, defs, n - 1, typed);
    }
  }

  /**
   In every arena `resolve` builds, child lists and parent links agree, parents come before
   their children, and, when names are unique, every selection fits the type its link denotes.
   */
  lemma {:induction false} ResolvedQueriesAreShaped(schema: Schema, doc: Ast.Document, typed: bool)
    requires schema.Valid() && Resolved(schema, doc).Success? && (typed ==> UniquelyNamed(doc.definitions))
    ensures Shaped(schema, Resolved(schema, doc).value, typed)
  {
    hide Shaped, WithDefinitions, WithRoots, UniquelyNamed;
    var defs := doc.definitions;
    assert defs[..|defs|] == defs;
    EveryResolvedArenaIsShaped(schema, WithRoots(schema, NOTHING, defs).value, defs, |defs|, typed);
  }

  /** In every arena `resolve` builds, there is an entry for every fragment and operation, each on its type. */
  lemma {:induction false} EveryDefinitionIsEntered(schema: Schema, doc: Ast.Document)
    requires schema.Valid() && Resolved(schema, doc).Success?
    ensures var a := Resolved(schema, doc).value;
            && Entered(schema, a, doc.definitions)
            && (forall n | 0 <= n < |a.operations| ::
                  IsRootType(schema, a.operations[n].kind, a.operations[n].objectId))
  {
    hide Shaped, WithDefinitions, WithRoots, UniquelyNamed;
    var defs := doc.definitions;
    assert defs[..|defs|] == defs;
    EveryResolvedArenaIsShaped(schema, WithRoots(schema, NOTHING, defs).value, defs, |defs|, false);
    var a, os := Resolved(schema, doc).value, Operations(defs);
    forall n | 0 <= n < |a.operations| ensures IsRootType(schema, a.operations[n].kind, a.operations[n].objectId) {
      assert OperationEntered(schema, a.operations[n], os[n]);
    }
  }

  lemma EmptyIsShaped(schema: Schema, a: Arena, typed: bool)
    requires schema.Valid() && RootsInRange(schema, a) && EmptyFrom(a, 0, 0) && a.nodes == [] && a.parents == []
    ensures Shaped(schema, a, typed)
  {
  }

  // ----- Reading back -----

  /** The first `f` fragments and `o` operations read as written; the others have no selections yet. */
  ghost predicate ReadsUpTo(schema: Schema, a: Arena, fs: seq<Ast.Definition>, os: seq<Ast.Definition>, f: nat, o: nat)
    requires schema.Valid() && Shaped(schema, a, true) && |fs| == |a.fragments| && |os| == |a.operations|
  {
    && EmptyFrom(a, f, o)
    && (forall i | 0 <= i < f && i < |fs| :: ReadsAs(schema, a, a.fragments[i].selectionSet, fs[i]))
    && (forall i | 0 <= i < o && i < |os| :: ReadsAs(schema, a, a.operations[i].selectionSet, os[i]))
  }

  /** The listed selections are those the definition was written with. */
  ghost predicate ReadsAs(schema: Schema, a: Arena, ids: seq<nat>, d: Ast.Definition)
    requires schema.Valid() && Shaped(schema, a, true)
  {
    InTable(a, ids) && ReadAll(schema, a, true, ids) == WrittenAll(d.selectionSet)
  }

  /** Where one more definition was laid, its selections read as written, and the others still do. */
  lemma OneMoreReads(schema: Schema, a: Arena, b: Arena, fs: seq<Ast.Definition>, os: seq<Ast.Definition>,
                     f: nat, o: nat, p: Parent, d: Ast.Definition)
    requires schema.Valid() && Shaped(schema, a, true) && Shaped(schema, b, true)
    requires |fs| == |a.fragments| == |b.fragments| && |os| == |a.operations| == |b.operations|
    requires ReadsUpTo(schema, a, fs, os, f, o)
    requires a.nodes <= b.nodes && Heads(b.fragments) == Heads(a.fragments)
    requires forall i | 0 <= i < |fs| :: p != OfFragment(i) ==> b.fragments[i] == a.fragments[i]
    requires forall i | 0 <= i < |os| :: p != OfOperation(i) ==> b.operations[i] == a.operations[i]
    requires HasParent(b, p) && ReadsAs(schema, b, ChildrenOf(b, p), d)
    requires (p == OfFragment(f) && f < |fs| && fs[f] == d) || (p == OfOperation(o) && o < |os| && os[o] == d)
    ensures ReadsUpTo(schema, b, fs, os, if p.OfFragment? then f + 1 else f, if p.OfFragment? then o else o + 1)
  {
    hide Shaped, Heads, ReadsAs;
    forall i | 0 <= i < f && i < |fs| ensures ReadsAs(schema, b, b.fragments[i].selectionSet, fs[i]) {
      StillReads(schema, a, b, a.fragments[i].selectionSet, fs[i]);
    }
    forall i | 0 <= i < o && i < |os| ensures ReadsAs(schema, b, b.operations[i].selectionSet, os[i]) {
      StillReads(schema, a, b, a.operations[i].selectionSet, os[i]);
    }
  }

  lemma StillReads(schema: Schema, a: Arena, b: Arena, ids: seq<nat>, d: Ast.Definition)
    requires schema.Valid() && Shaped(schema, a, true) && Shaped(schema, b, true)
    requires a.nodes <= b.nodes && Heads(b.fragments) == Heads(a.fragments) && ReadsAs(schema, a, ids, d)
    ensures ReadsAs(schema, b, ids, d)
  {
    hide Shaped, ReadAll;
    ReadAllStays(schema, a, b, true, ids);
  }

  /** The new selections of a definition read as written. */
  lemma NewOnesRead(schema: Schema, a: Arena, defs: seq<Ast.Definition>, n: nat) returns (p: Parent, b: Arena)
    requires schema.Valid() && n < |defs| && Entered(schema, a, defs) && UniquelyNamed(defs) && Shaped(schema, a, true)
    requires WithDefinition(schema, a, defs[n]).Success?
    requires EmptyFrom(a, |Fragments(defs[..n])|, |Operations(defs[..n])|)
    ensures b == WithDefinition(schema, a, defs[n]).value && Entered(schema, b, defs) && Shaped(schema, b, true)
    ensures HasParent(b, p) && ReadsAs(schema, b, ChildrenOf(b, p), defs[n])
    ensures a.nodes <= b.nodes && Heads(b.fragments) == Heads(a.fragments) && SameEntries(a, b)
    ensures (forall i | 0 <= i < |a.fragments| :: p != OfFragment(i) ==> b.fragments[i] == a.fragments[i])
    ensures (forall i | 0 <= i < |a.operations| :: p != OfOperation(i) ==> b.operations[i] == a.operations[i])
    ensures p == if defs[n].Fragment? then OfFragment(|Fragments(defs[..n])|) else OfOperation(|Operations(defs[..n])|)
  {
    hide Layout, WithDefinition, Grow, Heads, UniquelyNamed, LinkedUp, LinkedDown, RootsInRange, PlaceOf, Entered,
         Stands, Fragments, Operations;
    var d := defs[n];
    DefinitionKeepsShape(schema, a, defs, n, true);
    var on, l;
    p, on, l := DefinitionLays(schema, a, d);
    var start := a.(variables := a.variables + NewVariables(schema, p, d).value);
    b := Grow(start, p, l);
    RootGrows(start, p, l);
    EnteredInRange(schema, a, defs);
    PlaceIsOwn(schema, a, defs, n);
    LaidReadsAsWritten(schema, b, true, on, d.selectionSet, p, |a.nodes|);
    assert ChildrenOf(start, p) == [];
    assert [] + l.ids == l.ids;
  }

  lemma DefinitionReads(schema: Schema, a: Arena, defs: seq<Ast.Definition>, n: nat)
    requires schema.Valid() && n < |defs| && Entered(schema, a, defs) && UniquelyNamed(defs) && Shaped(schema, a, true)
    requires WithDefinition(schema, a, defs[n]).Success?
    requires ReadsUpTo(schema, a, Fragments(defs), Operations(defs), |Fragments(defs[..n])|, |Operations(defs[..n])|)
    ensures var b := WithDefinition(schema, a, defs[n]).value;
            && Entered(schema, b, defs) && Shaped(schema, b, true)
            && ReadsUpTo(schema, b, Fragments(defs), Operations(defs),
                         |Fragments(defs[..n + 1])|, |Operations(defs[..n + 1])|)
  {
    hide WithDefinition, Heads, UniquelyNamed, Shaped, Entered, Fragments, Operations, ReadsAs, PlaceOf, ChildrenOf,
         HasParent;
    EnteredCounts(schema, a, defs);
    var p, b := NewOnesRead(schema, a, defs, n);
    InOrder(defs, n);
    assert defs[n].SelectionSet? ==> WithDefinition(schema, a, defs[n]).Failure? by {
      NoBareSets(schema, a, defs[n]);
    }
    OneMoreReads(schema, a, b, Fragments(defs), Operations(defs),
                 |Fragments(defs[..n])|, |Operations(defs[..n])|, p, defs[n]);
  }

  lemma NoBareSets(schema: Schema, a: Arena, d: Ast.Definition)
    requires schema.Valid()
    ensures d.SelectionSet? ==> WithDefinition(schema, a, d).Failure?
  {
  }

  lemma {:induction false} PrefixReads(schema: Schema, roots: Arena, defs: seq<Ast.Definition>, n: nat)
    requires schema.Valid() && n <= |defs| && UniquelyNamed(defs)
    requires WithRoots(schema, NOTHING, defs) == Success(roots)
    requires WithDefinitions(schema, roots, defs[..n]).Success?
    ensures var a := WithDefinitions(schema, roots, defs[..n]).value;
            && Entered(schema, a, defs) && Shaped(schema, a, true)
            && ReadsUpTo(schema, a, Fragments(defs), Operations(defs), |Fragments(defs[..n])|, |Operations(defs[..n])|)
    decreases n
  {
    hide WithDefinition, Entered, WithRoots, UniquelyNamed, Shaped;
    EveryResolvedArenaIsShaped(schema, roots, defs, n, true);
    if n == 0 {
      RootsAreEntered(schema, defs);
      EnteredCounts(schema, roots, defs);
    } else {
      assert defs[..n][..n - 1] == defs[..n - 1];
      PrefixReads(schema, roots, defs, n - 1);
      DefinitionReads(schema, WithDefinitions(schema, roots, defs[..n - 1]).value, defs, n - 1);
      EnteredCounts(schema, WithDefinitions(schema, roots, defs[..n]).value, defs);
    }
  }

  lemma EnteredCounts(schema: Schema, a: Arena, defs: seq<Ast.Definition>)
    requires Entered(schema, a, defs)
    ensures |a.fragments| == |Fragments(defs)| && |a.operations| == |Operations(defs)|
  {
  }

  /**
   With unique names, a resolved query is the document: its fragments and operations in order,
   with their names and types, and under each the selections it was written with.
   */
  lemma ResolvedReadsAsWritten(schema: Schema, doc: Ast.Document)
    requires schema.Valid() && Resolved(schema, doc).Success? && UniquelyNamed(doc.definitions)
    ensures var a := Resolved(schema, doc).value;
            var fs, os := Fragments(doc.definitions), Operations(doc.definitions);
            && Shaped(schema, a, true)
            && |a.fragments| == |fs| && |a.operations| == |os|
            && (forall i | 0 <= i < |fs| ::
                  && fs[i] in fs && FragmentEntered(schema, a.fragments[i], fs[i])
                  && ReadsAs(schema, a, a.fragments[i].selectionSet, fs[i]))
            && (forall i | 0 <= i < |os| ::
                  && os[i] in os && OperationEntered(schema, a.operations[i], os[i])
                  && ReadsAs(schema, a, a.operations[i].selectionSet, os[i]))
  {
    hide Shaped, WithDefinitions, WithRoots, ReadsAs, FragmentEntered, OperationEntered;
    var defs := doc.definitions;
    assert defs[..|defs|] == defs;
    PrefixReads(schema, WithRoots(schema, NOTHING, defs).value, defs, |defs|);
  }
}
