/** The compiler from end to end: a schema from either builder, a query text, and what is generated for an operation. */
module CompiledQueries {
  import opened Wrappers
  import Ast
  import Grammar
  import opened Schemas
  import opened Arenas
  import opened ArenaShape
  import opened Resolution
  import opened ResolvedVariables
  import opened UsedTypes
  import opened Expansion
  import opened ExpandedSelections
  import opened VariantContents
  import opened GeneratedNames
  import opened ReadyQueries
  import ResolvedDocuments
  import SameSchema
  import SchemaReadBack
  import opened SchemaTables
  import S = SdlBuilder
  import I = Introspection

  /** A builder returns this schema. */
  ghost predicate IsBuilt(schema: Schema) {
    (exists items :: S.FromSdl(items) == Some(schema)) || (exists j :: I.FromJson(j) == Some(schema))
  }

  lemma {:induction false} BuiltIsValid(schema: Schema)
    requires IsBuilt(schema)
    ensures schema.Valid()
  {
    hide S.FromSdl, I.FromJson, Schema.Valid;
    if items :| S.FromSdl(items) == Some(schema) {
      SameSchema.BuiltSchemasAreValid(items, I.JsonSchema(None, None, None, None));
    } else {
      var j :| I.FromJson(j) == Some(schema);
      SameSchema.BuiltSchemasAreValid([], j);
    }
  }

  /** The operation is on the object with the name given for its kind. */
  predicate OnNamedRoot(schema: Schema, roots: Roots, o: ResolvedOperation)
    requires o.objectId < |schema.objects|
  {
    var name := Some(schema.objects[o.objectId].name);
    match o.kind
    case Query => roots.query == name
    case Mutation => roots.mutation == name
    case Subscription => roots.subscription == name
  }

  lemma OnNamed(schema: Schema, c: Contents, roots: Roots, o: ResolvedOperation)
    requires ResolvedDocuments.IsRootType(schema, o.kind, o.objectId) && SchemaReadBack.TablesRead(schema, c, roots)
    ensures o.objectId < |schema.objects| && OnNamedRoot(schema, roots, o)
  {
    hide SchemaReadBack.ObjectReads, SchemaReadBack.InterfaceReads, SchemaReadBack.UnionReads,
         SchemaReadBack.InputReads;
  }

  /**
   Every operation that is resolved is on the object that the schema definition names for its
   kind or, where there is none, on the one with the usual name.
   */
  lemma {:induction false} OperationsAreOnNamedRoots(items: seq<S.SchemaItem>, schema: Schema, doc: Ast.Document,
                                                     n: nat)
    requires S.FromSdl(items) == Some(schema) && schema.Valid()
    requires Resolved(schema, doc).Success? && n < |Resolved(schema, doc).value.operations|
    ensures var o := Resolved(schema, doc).value.operations[n];
            && o.objectId < |schema.objects|
            && exists roots :: SchemaReadBack.SdlRootsRead(items, roots) && OnNamedRoot(schema, roots, o)
  {
    hide Resolved, S.FromSdl, Schema.Valid, SchemaReadBack.SdlRootsRead, SchemaReadBack.SdlReads,
         SchemaReadBack.TablesRead, ResolvedDocuments.IsRootType, ResolvedDocuments.Entered, OnNamedRoot;
    ResolvedDocuments.EveryDefinitionIsEntered(schema, doc);
    SchemaReadBack.SdlReadsBack(items, schema);
    var c, roots :| && SchemaReadBack.SdlReads(items, c) && SchemaReadBack.SdlRootsRead(items, roots)
                    && SchemaReadBack.TablesRead(schema, c, roots);
    OnNamed(schema, c, roots, Resolved(schema, doc).value.operations[n]);
  }

  /** With introspection data, it is on the one that this names. */
  lemma {:induction false} OperationsAreOnGivenRoots(j: I.JsonSchema, schema: Schema, doc: Ast.Document, n: nat)
    requires I.FromJson(j) == Some(schema) && schema.Valid()
    requires Resolved(schema, doc).Success? && n < |Resolved(schema, doc).value.operations|
    ensures var o := Resolved(schema, doc).value.operations[n];
            && o.objectId < |schema.objects|
            && exists roots :: SchemaReadBack.JsonRootsRead(j, roots) && OnNamedRoot(schema, roots, o)
  {
    hide Resolved, I.FromJson, Schema.Valid, SchemaReadBack.JsonRootsRead, SchemaReadBack.JsonReads,
         SchemaReadBack.TablesRead, ResolvedDocuments.IsRootType, ResolvedDocuments.Entered, OnNamedRoot;
    ResolvedDocuments.EveryDefinitionIsEntered(schema, doc);
    SchemaReadBack.JsonReadsBack(j, schema);
    var c, roots :| && SchemaReadBack.JsonReads(j.types.value, c) && SchemaReadBack.JsonRootsRead(j, roots)
                    && SchemaReadBack.TablesRead(schema, c, roots);
    OnNamed(schema, c, roots, Resolved(schema, doc).value.operations[n]);
  }

  /** The schema is one a builder returns, with output types for fields, and the query is resolved from the text. */
  ghost predicate IsCompiled(cx: Context, text: string) {
    && IsBuilt(cx.schema) && OutputTyped(cx.schema)
    && Grammar.ParseQuery(text).Some?
    && (BuiltIsValid(cx.schema); Resolved(cx.schema, Grammar.ParseQuery(text).value) == Success(cx.a))
  }

  /** It can be walked and expanded: whatever the text, and whatever the names in it. */
  lemma {:induction false} CompiledIsReady(cx: Context, text: string)
    requires IsCompiled(cx, text)
    ensures Ready(cx) && InRange(cx.schema, cx.a.variables)
  {
    hide Grammar.ParseQuery, Resolved, Ready, InRange, OutputTyped, Schema.Valid, IsBuilt;
    BuiltIsValid(cx.schema);
    ParsedIsFilled(text);
    ResolvedIsReady(cx, Grammar.ParseQuery(text).value);
  }

  /**
   What is collected for an operation is exactly what it uses: its selections, those of the
   fragments it uses, its variables and the fields of its input types are all accounted for,
   and whatever accounts for them contains what is collected.
   */
  lemma {:induction false} CollectedIsExactlyUsed(cx: Context, text: string, operation: nat)
    requires IsCompiled(cx, text) && operation < |cx.a.operations|
    ensures Ready(cx) && InRange(cx.schema, cx.a.variables)
    ensures Complete(cx.schema, cx.a, operation, UsedBy(cx.schema, cx.a, operation))
    ensures forall bound | Complete(cx.schema, cx.a, operation, bound) ::
            UsedBy(cx.schema, cx.a, operation).Within(bound)
  {
    CompiledIsReady(cx, text);
    hide IsCompiled, Walkable, SelectsNoInputs, RootsInRange, Complete, UsedBy;
    UsedIsLeastComplete(cx.schema, cx.a, operation);
  }

  /**
   The structs generated for an operation, those of its own expansion and of the fragments it
   uses: each has its name and what its selections call for, exactly the variants of its
   type, and refers to nothing that is not generated for the operation.
   */
  lemma {:induction false} GeneratedIsClosed(cx: Context, text: string, operation: nat, root: Parent, out: Out, j: nat)
    requires IsCompiled(cx, text) && operation < |cx.a.operations|
    requires (CompiledIsReady(cx, text); IsGenerated(operation, UsedBy(cx.schema, cx.a, operation), root))
    requires HasParent(cx.a, root) && (CompiledIsReady(cx, text); Whole(cx, root, out)) && j < |out.types|
    ensures Ready(cx) && InRange(cx.schema, cx.a.variables) && Settled(cx, out, j)
    ensures HasItsVariants(cx, out.origins[j], j, VariantsOn(out.variants, j))
    ensures RefersToGenerated(cx, UsedBy(cx.schema, cx.a, operation), out, j)
  {
    CompiledIsReady(cx, text);
    assert Settled(cx, out, j);
    hide IsCompiled, Ready, Settled, OriginOk, HasItsVariants, RefersToGenerated, Whole, UsedBy;
    EveryStructHasItsVariants(cx, root, out, j);
    EveryReferenceIsGenerated(cx, operation, root, out, j);
  }
}
