/**
 Expanding a resolved selection into Rust structs, enum variants and aliases
 (crates/codegen/src/codegen/selection.rs).  First what is to come out, as functions of the
 resolved query: which structs, in which order, and what belongs to each.
 */
module Expansion {
  import opened Wrappers
  import opened TypeQualifiers
  import opened Schemas
  import opened Arenas
  import opened ArenaShape
  import opened ReadBack
  import opened Walks
  import opened UsedTypes

  /** The query with its schema, and the two conversions of names, which are left open. */
  datatype Context = Context(schema: Schema, a: Arena, camel: string -> string, typeName: string -> string)

  predicate Ready(cx: Context) {
    && cx.schema.Valid() && Walkable(cx.schema, cx.a) && Linked(cx.a) && NodesInRange(cx.schema, cx.a)
    && SelectsNoInputs(cx.schema, cx.a) && RootsInRange(cx.schema, cx.a)
  }

  datatype ExpandedField = ExpandedField(
    structId: nat, graphqlName: Option<string>, fieldType: string, qualifiers: seq<Qualifier>,
    flatten: bool, deprecation: Option<Option<string>>, boxed: bool)

  datatype ExpandedVariant = ExpandedVariant(on: nat, name: string, variantType: Option<string>)

  datatype TypeAlias = TypeAlias(structId: nat, name: string, boxed: bool)

  /** What a struct is made for. */
  datatype Origin = FromRoot(root: Parent) | FromField(id: nat) | FromVariant(selections: seq<nat>, on: TypeId)

  // ----- Names -----

  function PathName(cx: Context, id: nat): string
    requires Ready(cx) && id < |cx.a.nodes| && !cx.a.nodes[id].Typename?
  {
    var chain := ChainTo(cx.a, id);
    RootSegment(cx.a, RootOf(cx.a, id), cx.camel) +
    Segments(cx.schema, cx.a, if cx.a.nodes[id].Field? then chain else chain[..|chain| - 1], cx.camel)
  }

  function VariantName(cx: Context, id: nat, on: TypeId): string
    requires Ready(cx) && id < |cx.a.nodes| && !cx.a.nodes[id].Typename? && cx.schema.Has(on)
  {
    PathName(cx, id) + "On" + cx.schema.TypeName(on)
  }

  predicate SpreadRecursive(cx: Context, f: nat)
    requires Ready(cx) && f < |cx.a.fragments|
  {
    FragmentIsRecursive(cx.a, f)
  }

  // ----- What belongs to a struct -----

  /** A selection of one fragment spread and nothing else: the struct becomes an alias. */
  predicate Lone(cx: Context, ids: seq<nat>)
    requires InTable(cx.a, ids)
  {
    |ids| == 1 && (assert ids[0] in ids; cx.a.nodes[ids[0]].FragmentSpread?)
  }

  function SpreadField(cx: Context, f: nat, s: nat): ExpandedField
    requires Ready(cx) && f < |cx.a.fragments|
  {
    ExpandedField(s, None, cx.a.fragments[f].name, [Required], true, None, SpreadRecursive(cx, f))
  }

  function SpreadAlias(cx: Context, f: nat, s: nat): TypeAlias
    requires Ready(cx) && f < |cx.a.fragments|
  {
    TypeAlias(s, cx.a.fragments[f].name, SpreadRecursive(cx, f))
  }

  predicate IsEnum(t: TypeId) {
    t.UnionId? || t.InterfaceId?
  }

  /** The field for one selection on type `t`, if there is one. */
  function FieldFor(cx: Context, id: nat, t: TypeId, s: nat): seq<ExpandedField>
    requires Ready(cx) && id < |cx.a.nodes|
  {
    assert NodeWalkable(cx.schema, cx.a, id);
    match cx.a.nodes[id]
    case Field(alias, f, _) =>
      var field := cx.schema.fields[f];
      var name := if alias.Some? then alias.value else field.name;
      var fieldType :=
        match field.fieldType.id
        case EnumId(e) => cx.typeName(cx.schema.enums[e].name)
        case ScalarId(c) => cx.typeName(cx.schema.scalars[c])
        case _ => PathName(cx, id);
      [ExpandedField(s, Some(name), fieldType, field.fieldType.qualifiers, false, field.deprecation, false)]
    case FragmentSpread(f) => if cx.a.fragments[f].on == t then [SpreadField(cx, f, s)] else []
    case _ => []
  }

  function AllFields(cx: Context, ids: seq<nat>, t: TypeId, s: nat): seq<ExpandedField>
    requires Ready(cx) && InTable(cx.a, ids)
  {
    if ids == [] then []
    else
      InitInTable(cx.a, ids);
      AllFields(cx, ids[..|ids| - 1], t, s) + FieldFor(cx, ids[|ids| - 1], t, s)
  }

  /** Whether a selection on type `t` says something of its variant `v`. */
  predicate Matches(cx: Context, id: nat, t: TypeId, v: TypeId)
    requires Ready(cx) && id < |cx.a.nodes|
  {
    assert NodeWalkable(cx.schema, cx.a, id);
    match cx.a.nodes[id]
    case InlineFragment(on, _) => on == v
    case FragmentSpread(f) => cx.a.fragments[f].on != t && cx.a.fragments[f].on == v
    case _ => false
  }

  /** The selections on variant `v` of type `t`, in order. */
  function Matching(cx: Context, ids: seq<nat>, t: TypeId, v: TypeId): (ms: seq<nat>)
    requires Ready(cx) && InTable(cx.a, ids)
    ensures forall m | m in ms :: m in ids && m < |cx.a.nodes| && Matches(cx, m, t, v)
  {
    if ids == [] then []
    else
      InitInTable(cx.a, ids);
      var last := ids[|ids| - 1];
      Matching(cx, ids[..|ids| - 1], t, v) + if Matches(cx, last, t, v) then [last] else []
  }

  function VariantFor(cx: Context, ids: seq<nat>, t: TypeId, v: TypeId, s: nat): ExpandedVariant
    requires Ready(cx) && InTable(cx.a, ids) && cx.schema.Has(v)
  {
    var ms := Matching(cx, ids, t, v);
    ExpandedVariant(s, cx.schema.TypeName(v),
      if ms == [] then None
      else
        assert ms[0] in ms;
        Some(VariantName(cx, ms[0], v)))
  }

  predicate AllHave(schema: Schema, vs: seq<TypeId>) {
    forall k | 0 <= k < |vs| :: schema.Has(vs[k])
  }

  function AllVariants(cx: Context, ids: seq<nat>, t: TypeId, vs: seq<TypeId>, s: nat): (r: seq<ExpandedVariant>)
    requires Ready(cx) && InTable(cx.a, ids) && AllHave(cx.schema, vs)
    ensures |r| == |vs| && forall k | 0 <= k < |vs| :: r[k] == VariantFor(cx, ids, t, vs[k], s)
  {
    if vs == [] then []
    else AllVariants(cx, ids, t, vs[..|vs| - 1], s) + [VariantFor(cx, ids, t, vs[|vs| - 1], s)]
  }

  /** The variants of an enum for type `t`; none if `t` is neither union nor interface. */
  function Variants(cx: Context, t: TypeId): (vs: seq<TypeId>)
    requires cx.schema.Valid() && cx.schema.Has(t)
    ensures AllHave(cx.schema, vs) && (!IsEnum(t) ==> vs == [])
  {
    var vs := cx.schema.PossibleTypes(t);
    assert forall k | 0 <= k < |vs| :: vs[k] in vs;
    vs
  }

  /** Fields, variants and aliases of a struct. */
  datatype Parts = Parts(fields: seq<ExpandedField>, variants: seq<ExpandedVariant>, aliases: seq<TypeAlias>) {
    function And(other: Parts): Parts {
      Parts(fields + other.fields, variants + other.variants, aliases + other.aliases)
    }
  }

  const NONE: Parts := Parts([], [], [])

  /** What a struct `s` gets for the selections `ids` on type `t`. */
  function PartsFor(cx: Context, ids: seq<nat>, t: TypeId, s: nat): Parts
    requires Ready(cx) && InTable(cx.a, ids) && cx.schema.Has(t)
  {
    if Lone(cx, ids) then
      assert ids[0] in ids && NodeWalkable(cx.schema, cx.a, ids[0]);
      Parts([], [], [SpreadAlias(cx, cx.a.nodes[ids[0]].fragmentId, s)])
    else Parts(AllFields(cx, ids, t, s), AllVariants(cx, ids, t, Variants(cx, t), s), [])
  }

  predicate AllNodes(a: Arena, ids: seq<nat>) {
    forall k | 0 <= k < |ids| :: ids[k] < |a.nodes|
  }

  /**
   What a variant's struct gets for each of the selections on the variant.  For every inline
   fragment it is the selections under `first` that are expanded, as in the original.
   */
  function PartsOfEach(cx: Context, ms: seq<nat>, first: nat, v: TypeId, s: nat): Parts
    requires Ready(cx) && AllNodes(cx.a, ms) && first < |cx.a.nodes| && cx.schema.Has(v)
  {
    if ms == [] then NONE
    else
      var last := ms[|ms| - 1];
      assert NodeWalkable(cx.schema, cx.a, last) && NodeWalkable(cx.schema, cx.a, first);
      var own := match cx.a.nodes[last]
        case InlineFragment(_, _) => PartsFor(cx, cx.a.nodes[first].Subselection(), v, s)
        case FragmentSpread(f) => Parts([SpreadField(cx, f, s)], [], [])
        case _ => NONE;
      PartsOfEach(cx, ms[..|ms| - 1], first, v, s).And(own)
  }

  function VariantParts(cx: Context, ms: seq<nat>, v: TypeId, s: nat): Parts
    requires Ready(cx) && AllNodes(cx.a, ms) && ms != [] && cx.schema.Has(v)
  {
    if |ms| == 1 && cx.a.nodes[ms[0]].FragmentSpread? then
      assert NodeWalkable(cx.schema, cx.a, ms[0]);
      Parts([], [], [SpreadAlias(cx, cx.a.nodes[ms[0]].fragmentId, s)])
    else PartsOfEach(cx, ms, ms[0], v, s)
  }

  // ----- Which structs there are -----

  predicate OriginOk(cx: Context, o: Origin)
    requires Ready(cx)
  {
    match o
    case FromRoot(root) => IsRoot(root) && HasParent(cx.a, root)
    case FromField(id) => id < |cx.a.nodes| && cx.a.nodes[id].Field?
    case FromVariant(ms, on) => ms != [] && AllNodes(cx.a, ms) && !cx.a.nodes[ms[0]].Typename? && cx.schema.Has(on)
  }

  function StructName(cx: Context, o: Origin): string
    requires Ready(cx) && OriginOk(cx, o)
  {
    match o
    case FromRoot(OfFragment(f)) => cx.a.fragments[f].name
    case FromRoot(OfOperation(n)) => cx.a.operations[n].name
    case FromField(id) => PathName(cx, id)
    case FromVariant(ms, on) => VariantName(cx, ms[0], on)
  }

  function PartsOf(cx: Context, o: Origin, s: nat): Parts
    requires Ready(cx) && OriginOk(cx, o)
  {
    match o
    case FromRoot(OfFragment(f)) => PartsFor(cx, cx.a.fragments[f].selectionSet, cx.a.fragments[f].on, s)
    case FromRoot(OfOperation(n)) =>
      PartsFor(cx, cx.a.operations[n].selectionSet, ObjectId(cx.a.operations[n].objectId), s)
    case FromField(id) =>
      assert NodeWalkable(cx.schema, cx.a, id);
      PartsFor(cx, cx.a.nodes[id].selectionSet, cx.schema.fields[cx.a.nodes[id].fieldId].fieldType.id, s)
    case FromVariant(ms, on) => VariantParts(cx, ms, on, s)
  }

  predicate IsCompositeField(cx: Context, id: nat)
    requires Ready(cx) && id < |cx.a.nodes|
  {
    assert NodeWalkable(cx.schema, cx.a, id);
    cx.a.nodes[id].Field? && cx.schema.IsComposite(cx.schema.fields[cx.a.nodes[id].fieldId].fieldType.id)
  }

  /** The structs made for the selections `ids` on type `t`, beside the one they belong to. */
  function Structs(cx: Context, ids: seq<nat>, t: TypeId): seq<Origin>
    requires Ready(cx) && InTable(cx.a, ids) && cx.schema.Has(t)
    decreases |cx.a.nodes| - First(ids, |cx.a.nodes|), 3, 0
  {
    if Lone(cx, ids) then []
    else
      assert ids != [] ==> ids[0] in ids;
      VariantStructs(cx, ids, t, Variants(cx, t)) + FieldStructs(cx, ids)
  }

  function VariantStructs(cx: Context, ids: seq<nat>, t: TypeId, vs: seq<TypeId>): seq<Origin>
    requires Ready(cx) && InTable(cx.a, ids) && AllHave(cx.schema, vs)
    decreases |cx.a.nodes| - First(ids, |cx.a.nodes|), 2, |vs|
  {
    if vs == [] then []
    else VariantStructs(cx, ids, t, vs[..|vs| - 1]) + OneVariantStructs(cx, ids, t, vs[|vs| - 1])
  }

  function OneVariantStructs(cx: Context, ids: seq<nat>, t: TypeId, v: TypeId): seq<Origin>
    requires Ready(cx) && InTable(cx.a, ids) && cx.schema.Has(v)
    decreases |cx.a.nodes| - First(ids, |cx.a.nodes|), 2, 0
  {
    var ms := Matching(cx, ids, t, v);
    if ms == [] then []
    else
      assert ms[0] in ms;
      FirstIsFirst(cx.a, ids, ms[0]);
      assert forall k | 0 <= k < |ms| :: ms[k] in ms;
      [FromVariant(ms, v)] +
      if |ms| == 1 && cx.a.nodes[ms[0]].FragmentSpread? then [] else InnerStructs(cx, ms, ms[0], v)
  }

  function InnerStructs(cx: Context, ms: seq<nat>, first: nat, v: TypeId): seq<Origin>
    requires Ready(cx) && AllNodes(cx.a, ms) && first < |cx.a.nodes| && cx.schema.Has(v)
    decreases |cx.a.nodes| - first, 1, |ms|
  {
    if ms == [] then []
    else
      NodeAt(cx.schema, cx.a, first);
      InnerStructs(cx, ms[..|ms| - 1], first, v) +
      if cx.a.nodes[ms[|ms| - 1]].InlineFragment? then Structs(cx, cx.a.nodes[first].Subselection(), v) else []
  }

  function FieldStructs(cx: Context, ids: seq<nat>): seq<Origin>
    requires Ready(cx) && InTable(cx.a, ids)
    decreases |cx.a.nodes| - First(ids, |cx.a.nodes|), 1, |ids|
  {
    if ids == [] then []
    else
      InitInTable(cx.a, ids);
      FieldStructs(cx, ids[..|ids| - 1]) + OneFieldStructs(cx, ids[|ids| - 1])
  }

  function OneFieldStructs(cx: Context, id: nat): seq<Origin>
    requires Ready(cx) && id < |cx.a.nodes|
    decreases |cx.a.nodes| - id, 0, 0
  {
    if IsCompositeField(cx, id) then
      NodeAt(cx.schema, cx.a, id);
      [FromField(id)] +
      Structs(cx, cx.a.nodes[id].selectionSet, cx.schema.fields[cx.a.nodes[id].fieldId].fieldType.id)
    else []
  }

  lemma FirstIsFirst(a: Arena, ids: seq<nat>, id: nat)
    requires InTable(a, ids) && id in ids
    ensures First(ids, |a.nodes|) <= id < |a.nodes|
  {
    var k: nat :| k < |ids| && ids[k] == id;
  }

  /** A resolved query is ready, if no selection brings in an input type. */
  lemma ShapedIsReady(cx: Context, typed: bool)
    requires cx.schema.Valid() && Shaped(cx.schema, cx.a, typed)
    ensures Walkable(cx.schema, cx.a)
    ensures SelectsNoInputs(cx.schema, cx.a) ==> Ready(cx)
  {
    ShapedIsWalkable(cx.schema, cx.a, typed);
    ShapedIsLinked(cx.schema, cx.a, typed);
    forall k | 0 <= k < |cx.a.nodes| ensures NodeInRange(cx.schema, |cx.a.fragments|, cx.a.nodes[k]) {
      NodeAt(cx.schema, cx.a, k);
    }
  }
}
