/**
 The variables of resolved operations (crates/codegen/src/query.rs): each operation gets back
 its own, as declared.
 */
module ResolvedVariables {
  import opened Wrappers
  import Ast
  import opened TypeQualifiers
  import opened Schemas
  import opened Arenas
  import opened Resolver
  import opened ArenaShape
  import opened Resolution
  import opened ResolvedDocuments

  /** `walk_operation_variables`. */
  function VariablesFor(vs: seq<ResolvedVariable>, operation: nat): (r: seq<ResolvedVariable>)
    ensures forall v | v in r :: v in vs && v.operationId == operation
  {
    if vs == [] then []
    else
      var last := vs[|vs| - 1];
      VariablesFor(vs[..|vs| - 1], operation) + if last.operationId == operation then [last] else []
  }

  predicate InRange(schema: Schema, vs: seq<ResolvedVariable>) {
    forall v | v in vs :: schema.Has(v.fieldType.id)
  }

  /** The declarations of resolved variables. */
  function Declarations(schema: Schema, vs: seq<ResolvedVariable>): seq<Ast.VariableDefinition>
    requires InRange(schema, vs)
  {
    seq(|vs|, i requires 0 <= i < |vs| =>
      assert vs[i] in vs;
      var t := vs[i].fieldType;
      Ast.VariableDefinition(vs[i].name, TypeOf(schema.TypeName(t.id), t.qualifiers), vs[i].default))
  }

  lemma {:induction false} ForBoth(vs: seq<ResolvedVariable>, ws: seq<ResolvedVariable>, operation: nat)
    ensures VariablesFor(vs + ws, operation) == VariablesFor(vs, operation) + VariablesFor(ws, operation)
  {
    if ws == [] {
      assert vs + ws == vs;
    } else {
      var init, last := ws[..|ws| - 1], ws[|ws| - 1];
      ForBoth(vs, init, operation);
      assert (vs + ws)[..|vs + ws| - 1] == vs + init && (vs + ws)[|vs + ws| - 1] == last;
      var own := if last.operationId == operation then [last] else [];
      assert VariablesFor(vs, operation) + (VariablesFor(init, operation) + own) ==
             VariablesFor(vs, operation) + VariablesFor(init, operation) + own;
    }
  }

  lemma {:induction false} ForOne(vs: seq<ResolvedVariable>, operation: nat, other: nat)
    requires forall v | v in vs :: v.operationId == operation
    ensures VariablesFor(vs, other) == if other == operation then vs else []
  {
    if vs != [] {
      var init, last := vs[..|vs| - 1], vs[|vs| - 1];
      assert last in vs && forall v | v in init :: v in vs;
      assert init + [last] == vs;
      ForOne(init, operation, other);
      var rest := VariablesFor(init, other);
      assert VariablesFor(vs, other) == rest + if other == operation then [last] else [];
    }
  }

  lemma OneDeclaredBack(schema: Schema, operation: nat, d: Ast.VariableDefinition)
    requires schema.Valid() && VariableOf(schema, operation, d).Success?
    ensures var v := VariableOf(schema, operation, d).value;
            && schema.Has(v.fieldType.id) && v.operationId == operation
            && d == Ast.VariableDefinition(
                      v.name, TypeOf(schema.TypeName(v.fieldType.id), v.fieldType.qualifiers), v.default)
  {
    QualifiersRebuildType(d.varType);
  }

  /** The variables of one operation are what they were declared as. */
  lemma {:induction false} DeclaredBack(schema: Schema, operation: nat, defs: seq<Ast.VariableDefinition>)
    requires schema.Valid() && VariablesOf(schema, operation, defs).Success?
    ensures var vs := VariablesOf(schema, operation, defs).value;
            && InRange(schema, vs) && (forall v | v in vs :: v.operationId == operation)
            && Declarations(schema, vs) == defs
  {
    if defs != [] {
      hide Schema.Valid, QualifiersOf, TypeOf, NameOf;
      var init, last := defs[..|defs| - 1], defs[|defs| - 1];
      DeclaredBack(schema, operation, init);
      OneDeclaredBack(schema, operation, last);
      var vs := VariablesOf(schema, operation, init).value;
      var v := VariableOf(schema, operation, last).value;
      assert Declarations(schema, vs + [v]) == Declarations(schema, vs) + [last];
      assert defs == init + [last];
    }
  }

  // ----- Types of variables can be looked up -----

  lemma DefinitionInRange(schema: Schema, a: Arena, d: Ast.Definition)
    requires schema.Valid() && WithDefinition(schema, a, d).Success? && InRange(schema, a.variables)
    ensures InRange(schema, WithDefinition(schema, a, d).value.variables)
  {
    hide Layout, Declarations;
    var place := PlaceOf(schema, a, d).value;
    if d.Operation? && place.0.OfOperation? {
      DeclaredBack(schema, place.0.id, d.variables);
    }
  }

  lemma {:induction false} DefinitionsInRange(schema: Schema, a: Arena, ds: seq<Ast.Definition>)
    requires schema.Valid() && WithDefinitions(schema, a, ds).Success? && InRange(schema, a.variables)
    ensures InRange(schema, WithDefinitions(schema, a, ds).value.variables)
  {
    hide WithDefinition, InRange;
    if ds != [] {
      DefinitionsInRange(schema, a, ds[..|ds| - 1]);
      DefinitionInRange(schema, WithDefinitions(schema, a, ds[..|ds| - 1]).value, ds[|ds| - 1]);
    }
  }

  /** In every resolved document, whether or not its names are unique, variables have types of the schema. */
  lemma VariablesInRange(schema: Schema, doc: Ast.Document)
    requires schema.Valid() && Resolved(schema, doc).Success?
    ensures InRange(schema, Resolved(schema, doc).value.variables)
  {
    hide WithDefinitions;
    DefinitionsInRange(schema, WithRoots(schema, NOTHING, doc.definitions).value, doc.definitions);
  }

  // ----- Variables are read back as declared -----

  /** Of every operation the declarations, in order, and none of one not yet resolved. */
  ghost predicate DeclaredUpTo(schema: Schema, vs: seq<ResolvedVariable>, os: seq<Ast.Definition>, n: nat)
    requires forall d | d in os :: d.Operation?
  {
    && InRange(schema, vs)
    && forall i: nat :: Declarations(schema, VariablesFor(vs, i)) == if i < n && i < |os| then os[i].variables else []
  }

  lemma DeclaredLength(schema: Schema, vs: seq<ResolvedVariable>)
    requires InRange(schema, vs)
    ensures |Declarations(schema, vs)| == |vs|
  {
  }

  lemma OneMoreDeclared(schema: Schema, vs: seq<ResolvedVariable>, os: seq<Ast.Definition>, n: nat)
    requires schema.Valid() && n < |os| && forall d | d in os :: d.Operation?
    requires DeclaredUpTo(schema, vs, os, n) && VariablesOf(schema, n, os[n].variables).Success?
    ensures DeclaredUpTo(schema, vs + VariablesOf(schema, n, os[n].variables).value, os, n + 1)
  {
    hide VariablesOf, Declarations, VariablesFor;
    var ws := VariablesOf(schema, n, os[n].variables).value;
    DeclaredBack(schema, n, os[n].variables);
    forall i: nat
      ensures Declarations(schema, VariablesFor(vs + ws, i)) == if i < n + 1 && i < |os| then os[i].variables else []
    {
      assert Declarations(schema, VariablesFor(vs, i)) == if i < n && i < |os| then os[i].variables else [];
      ForBoth(vs, ws, i);
      ForOne(ws, n, i);
      DeclaredLength(schema, VariablesFor(vs, i));
      assert VariablesFor(vs + ws, i) == if i == n then ws else VariablesFor(vs, i);
    }
  }

  /** One definition more resolved. */
  lemma DefinitionDeclares(schema: Schema, a: Arena, defs: seq<Ast.Definition>, n: nat)
    requires schema.Valid() && n < |defs| && Entered(schema, a, defs) && UniquelyNamed(defs) && RootsInRange(schema, a)
    requires WithDefinition(schema, a, defs[n]).Success?
    requires DeclaredUpTo(schema, a.variables, Operations(defs), |Operations(defs[..n])|)
    ensures DeclaredUpTo(schema, WithDefinition(schema, a, defs[n]).value.variables,
                         Operations(defs), |Operations(defs[..n + 1])|)
  {
    hide WithDefinition, UniquelyNamed, Operations, DeclaredUpTo, PlaceOf, Entered, RootsInRange, Layout, Grow,
         VariablesOf;
    var p, on, l := DefinitionLays(schema, a, defs[n]);
    PlaceIsOwn(schema, a, defs, n);
    InOrder(defs, n);
    HeadsStay(a.(variables := a.variables + NewVariables(schema, p, defs[n]).value), p, l);
    if defs[n].Operation? {
      OneMoreDeclared(schema, a.variables, Operations(defs), |Operations(defs[..n])|);
    } else {
      assert a.variables + [] == a.variables;
    }
  }

  lemma {:induction false} PrefixDeclares(schema: Schema, roots: Arena, defs: seq<Ast.Definition>, n: nat)
    requires schema.Valid() && n <= |defs| && UniquelyNamed(defs)
    requires WithRoots(schema, NOTHING, defs) == Success(roots)
    requires WithDefinitions(schema, roots, defs[..n]).Success?
    ensures DeclaredUpTo(schema, WithDefinitions(schema, roots, defs[..n]).value.variables,
                         Operations(defs), |Operations(defs[..n])|)
    decreases n
  {
    if n == 0 {
      RootsAreEntered(schema, defs);
    } else {
      hide WithDefinition, UniquelyNamed, Operations, WithRoots, DeclaredUpTo, Entered, RootsInRange, Shaped;
      assert defs[..n][..n - 1] == defs[..n - 1];
      PrefixDeclares(schema, roots, defs, n - 1);
      var a := WithDefinitions(schema, roots, defs[..n - 1]).value;
      EveryResolvedArenaIsShaped(schema, roots, defs, n - 1, true);
      EnteredInRange(schema, a, defs);
      DefinitionDeclares(schema, a, defs, n - 1);
    }
  }

  /** With unique operation names, every operation gets back the variables it declared, in order. */
  lemma VariablesReadAsDeclared(schema: Schema, doc: Ast.Document, i: nat)
    requires schema.Valid() && Resolved(schema, doc).Success? && UniquelyNamed(doc.definitions)
    requires i < |Operations(doc.definitions)|
    ensures var vs, d := VariablesFor(Resolved(schema, doc).value.variables, i), Operations(doc.definitions)[i];
            && InRange(schema, vs) && d in Operations(doc.definitions)
            && Declarations(schema, vs) == d.variables
  {
    hide WithDefinitions, WithRoots, UniquelyNamed, Operations;
    var defs := doc.definitions;
    assert defs[..|defs|] == defs;
    PrefixDeclares(schema, WithRoots(schema, NOTHING, defs).value, defs, |defs|);
  }
}
