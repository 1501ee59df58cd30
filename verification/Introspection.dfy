/**
 Introspection data (crates/codegen/src/introspection_response.rs), what it holds, and how
 definitions are rendered as such data.
 */
module Introspection {
  import opened Wrappers
  import Ast
  import opened Schemas
  import opened SchemaTables

  datatype TypeKind = SCALAR | OBJECT | INTERFACE | UNION | ENUM | INPUT_OBJECT | LIST | NON_NULL | OTHER

  datatype TypeRef = TypeRef(kind: Option<TypeKind>, name: Option<string>, ofType: Option<TypeRef>)

  datatype JsonField = JsonField(
    name: Option<string>, fieldType: Option<TypeRef>, isDeprecated: Option<bool>, deprecationReason: Option<string>)

  datatype JsonInputField = JsonInputField(name: string, fieldType: TypeRef)

  datatype FullType = FullType(
    kind: Option<TypeKind>, name: Option<string>, fields: Option<seq<JsonField>>,
    inputFields: Option<seq<JsonInputField>>,
    interfaces: Option<seq<TypeRef>>, enumValues: Option<seq<Option<string>>>, possibleTypes: Option<seq<TypeRef>>)

  datatype JsonSchema = JsonSchema(
    queryType: Option<Option<string>>, mutationType: Option<Option<string>>, subscriptionType: Option<Option<string>>,
    types: Option<seq<Option<FullType>>>)

  // ----- Reading -----

  /** The type a reference stands for; None where the builder panics. */
  function DecodeType(r: TypeRef): Option<Ast.Type> {
    if r.kind == Some(NON_NULL) && r.ofType.Some? then
      var inner := DecodeType(r.ofType.value);
      if inner.None? then None else Some(Ast.NonNullType(inner.value))
    else if r.kind == Some(LIST) && r.ofType.Some? then
      var inner := DecodeType(r.ofType.value);
      if inner.None? then None else Some(Ast.ListType(inner.value))
    else if r.kind.Some? && r.ofType.None? && r.name.Some? then Some(Ast.NamedType(r.name.value))
    else None
  }

  function DecodeField(f: JsonField): Option<SourceField> {
    if f.name.None? || f.fieldType.None? || DecodeType(f.fieldType.value).None? then None
    else
      Some(SourceField(f.name.value, DecodeType(f.fieldType.value).value,
                       if f.isDeprecated == Some(true) then Some(f.deprecationReason) else None))
  }

  function DecodeInputField(f: JsonInputField): Option<SourceInputField> {
    var t := DecodeType(f.fieldType);
    if t.None? then None else Some(SourceInputField(f.name, t.value))
  }

  // The functions above as values, and two projections.

  function FieldDecoder(): JsonField -> Option<SourceField> { f => DecodeField(f) }

  function InputFieldDecoder(): JsonInputField -> Option<SourceInputField> { f => DecodeInputField(f) }

  function RefName(): TypeRef -> Option<string> { (r: TypeRef) => r.name }

  function Present(): Option<string> -> Option<string> { v => v }

  function DecodeScalar(t: FullType): Option<string> {
    t.name
  }

  function DecodeEnum(t: FullType): Option<StoredEnum> {
    if t.name.None? || t.enumValues.None? then None
    else
      var values := Traverse(Present(), t.enumValues.value);
      if values.None? then None else Some(StoredEnum(t.name.value, values.value))
  }

  function DecodeUnion(t: FullType): Option<SourceUnion> {
    if t.name.None? || t.possibleTypes.None? then None
    else
      var members := Traverse(RefName(), t.possibleTypes.value);
      if members.None? then None else Some(SourceUnion(t.name.value, members.value))
  }

  function DecodeInterface(t: FullType): Option<SourceObject> {
    if t.name.None? || t.fields.None? then None
    else
      var fields := Traverse(FieldDecoder(), t.fields.value);
      if fields.None? then None else Some(SourceObject(t.name.value, [], fields.value))
  }

  function DecodeObject(t: FullType): Option<SourceObject> {
    if t.name.None? || t.fields.None? then None
    else
      var fields := Traverse(FieldDecoder(), t.fields.value);
      var interfaces := if t.interfaces.None? then Some([]) else Traverse(RefName(), t.interfaces.value);
      if fields.None? || interfaces.None? then None
      else Some(SourceObject(t.name.value, interfaces.value, fields.value))
  }

  function DecodeInput(t: FullType): Option<SourceInput> {
    if t.name.None? || t.inputFields.None? then None
    else
      var fields := Traverse(InputFieldDecoder(), t.inputFields.value);
      if fields.None? then None else Some(SourceInput(t.name.value, fields.value))
  }

  function ScalarDecoder(): FullType -> Option<string> { t => DecodeScalar(t) }

  function EnumDecoder(): FullType -> Option<StoredEnum> { t => DecodeEnum(t) }

  function UnionDecoder(): FullType -> Option<SourceUnion> { t => DecodeUnion(t) }

  function InterfaceDecoder(): FullType -> Option<SourceObject> { t => DecodeInterface(t) }

  function ObjectDecoder(): FullType -> Option<SourceObject> { t => DecodeObject(t) }

  function InputDecoder(): FullType -> Option<SourceInput> { t => DecodeInput(t) }

  /** The types of one kind, in order. */
  function TypesOfKind(types: seq<Option<FullType>>, kind: TypeKind): seq<FullType> {
    if types == [] then []
    else
      var last := types[|types| - 1];
      TypesOfKind(types[..|types| - 1], kind) + if last.Some? && last.value.kind == Some(kind) then [last.value] else []
  }

  /** The scalars, but for the built-in ones; one without a name makes the builder panic. */
  function OwnScalars(scalars: seq<FullType>): seq<FullType> {
    if scalars == [] then []
    else
      var last := scalars[|scalars| - 1];
      OwnScalars(scalars[..|scalars| - 1]) +
      if last.name.Some? && last.name.value in DEFAULT_SCALARS then [] else [last]
  }

  function ContentsOf(types: seq<Option<FullType>>): Option<Contents> {
    var scalars := Traverse(ScalarDecoder(), OwnScalars(TypesOfKind(types, SCALAR)));
    var enums := Traverse(EnumDecoder(), TypesOfKind(types, ENUM));
    var unions := Traverse(UnionDecoder(), TypesOfKind(types, UNION));
    var interfaces := Traverse(InterfaceDecoder(), TypesOfKind(types, INTERFACE));
    var objects := Traverse(ObjectDecoder(), TypesOfKind(types, OBJECT));
    var inputs := Traverse(InputDecoder(), TypesOfKind(types, INPUT_OBJECT));
    if scalars.None? || enums.None? || unions.None? || interfaces.None? || objects.None? || inputs.None? then None
    else Some(Contents(scalars.value, enums.value, unions.value, interfaces.value, objects.value, inputs.value))
  }

  function RootName(r: Option<Option<string>>): Option<string> {
    if r.None? then None else r.value
  }

  function RootsOf(j: JsonSchema): Roots {
    Roots(RootName(j.queryType), RootName(j.mutationType), RootName(j.subscriptionType))
  }

  /** The schema built; None stands for a panic. */
  function FromJson(j: JsonSchema): Option<Schema> {
    if j.types.None? then None
    else
      var c := ContentsOf(j.types.value);
      if c.None? then None else Built(JsonNames(c.value), c.value, RootsOf(j))
  }

  // ----- Rendering -----

  /** A reference to a type; `kindOf` gives the kind of a named type. */
  function RenderType(t: Ast.Type, kindOf: string -> TypeKind): TypeRef {
    match t
    case NamedType(n) => TypeRef(Some(kindOf(n)), Some(n), None)
    case ListType(inner) => TypeRef(Some(LIST), None, Some(RenderType(inner, kindOf)))
    case NonNullType(inner) => TypeRef(Some(NON_NULL), None, Some(RenderType(inner, kindOf)))
  }

  function RenderField(f: SourceField, kindOf: string -> TypeKind): JsonField {
    JsonField(Some(f.name), Some(RenderType(f.fieldType, kindOf)), Some(f.deprecation.Some?),
              if f.deprecation.Some? then f.deprecation.value else None)
  }

  function RenderFields(fs: seq<SourceField>, kindOf: string -> TypeKind): seq<JsonField> {
    seq(|fs|, i requires 0 <= i < |fs| => RenderField(fs[i], kindOf))
  }

  function RenderNames(ns: seq<string>, kindOf: string -> TypeKind): seq<TypeRef> {
    seq(|ns|, i requires 0 <= i < |ns| => RenderType(Ast.NamedType(ns[i]), kindOf))
  }

  function RenderScalar(n: string): FullType {
    FullType(Some(SCALAR), Some(n), None, None, None, None, None)
  }

  function RenderEnum(e: StoredEnum): FullType {
    FullType(Some(ENUM), Some(e.name), None, None, None,
             Some(seq(|e.variants|, i requires 0 <= i < |e.variants| => Some(e.variants[i]))), None)
  }

  function RenderUnion(u: SourceUnion, kindOf: string -> TypeKind): FullType {
    FullType(Some(UNION), Some(u.name), None, None, None, None, Some(RenderNames(u.members, kindOf)))
  }

  function RenderInterface(o: SourceObject, kindOf: string -> TypeKind): FullType {
    FullType(Some(INTERFACE), Some(o.name), Some(RenderFields(o.fields, kindOf)), None, None, None, None)
  }

  function RenderObject(o: SourceObject, kindOf: string -> TypeKind): FullType {
    FullType(Some(OBJECT), Some(o.name), Some(RenderFields(o.fields, kindOf)), None,
             Some(RenderNames(o.interfaces, kindOf)), None, None)
  }

  function RenderInput(i: SourceInput, kindOf: string -> TypeKind): FullType {
    FullType(Some(INPUT_OBJECT), Some(i.name), None,
             Some(seq(|i.fields|, k requires 0 <= k < |i.fields| =>
               JsonInputField(i.fields[k].name, RenderType(i.fields[k].fieldType, kindOf)))),
             None, None, None)
  }

  /**
   The data describes the definitions: of each kind the same, rendered, in the same order, with
   the built-in scalars anywhere; the kinds may be mixed in any order.
   */
  predicate Describes(types: seq<Option<FullType>>, c: Contents, kindOf: string -> TypeKind) {
    var scalars, enums := OwnScalars(TypesOfKind(types, SCALAR)), TypesOfKind(types, ENUM);
    var unions, interfaces := TypesOfKind(types, UNION), TypesOfKind(types, INTERFACE);
    var objects, inputs := TypesOfKind(types, OBJECT), TypesOfKind(types, INPUT_OBJECT);
    && |scalars| == |c.scalars| && (forall i | 0 <= i < |scalars| :: scalars[i] == RenderScalar(c.scalars[i]))
    && |enums| == |c.enums| && (forall i | 0 <= i < |enums| :: enums[i] == RenderEnum(c.enums[i]))
    && |unions| == |c.unions| && (forall i | 0 <= i < |unions| :: unions[i] == RenderUnion(c.unions[i], kindOf))
    && |interfaces| == |c.interfaces|
    && (forall i | 0 <= i < |interfaces| :: interfaces[i] == RenderInterface(c.interfaces[i], kindOf))
    && |objects| == |c.objects| && (forall i | 0 <= i < |objects| :: objects[i] == RenderObject(c.objects[i], kindOf))
    && |inputs| == |c.inputs| && (forall i | 0 <= i < |inputs| :: inputs[i] == RenderInput(c.inputs[i], kindOf))
  }

  lemma {:induction false} TypeReadsBack(t: Ast.Type, kindOf: string -> TypeKind)
    ensures DecodeType(RenderType(t, kindOf)) == Some(t)
  {
    match t
    case NamedType(_) =>
    case ListType(inner) => TypeReadsBack(inner, kindOf);
    case NonNullType(inner) => TypeReadsBack(inner, kindOf);
  }

  lemma FieldsReadBack(fs: seq<SourceField>, kindOf: string -> TypeKind)
    ensures Traverse(FieldDecoder(), RenderFields(fs, kindOf)) == Some(fs)
  {
    forall i | 0 <= i < |fs| ensures FieldDecoder()(RenderFields(fs, kindOf)[i]) == Some(fs[i]) {
      TypeReadsBack(fs[i].fieldType, kindOf);
    }
    TraverseIs(FieldDecoder(), RenderFields(fs, kindOf), fs);
  }

  lemma ObjectsReadBack(o: SourceObject, kindOf: string -> TypeKind)
    ensures DecodeObject(RenderObject(o, kindOf)) == Some(o)
    ensures o.interfaces == [] ==> DecodeInterface(RenderInterface(o, kindOf)) == Some(o)
  {
    FieldsReadBack(o.fields, kindOf);
    TraverseIs(RefName(), RenderNames(o.interfaces, kindOf), o.interfaces);
  }

  lemma EnumsReadBack(e: StoredEnum)
    ensures DecodeEnum(RenderEnum(e)) == Some(e)
  {
    TraverseIs(Present(), RenderEnum(e).enumValues.value, e.variants);
  }

  lemma UnionsReadBack(u: SourceUnion, kindOf: string -> TypeKind)
    ensures DecodeUnion(RenderUnion(u, kindOf)) == Some(u)
  {
    TraverseIs(RefName(), RenderNames(u.members, kindOf), u.members);
  }

  lemma InputsReadBack(n: SourceInput, kindOf: string -> TypeKind)
    ensures DecodeInput(RenderInput(n, kindOf)) == Some(n)
  {
    var fs := RenderInput(n, kindOf).inputFields.value;
    forall i | 0 <= i < |fs| ensures InputFieldDecoder()(fs[i]) == Some(n.fields[i]) {
      TypeReadsBack(n.fields[i].fieldType, kindOf);
    }
    TraverseIs(InputFieldDecoder(), fs, n.fields);
  }

  /** Data that describes definitions holds them. */
  lemma DescribedIsRead(types: seq<Option<FullType>>, c: Contents, kindOf: string -> TypeKind)
    requires Describes(types, c, kindOf) && forall i | 0 <= i < |c.interfaces| :: c.interfaces[i].interfaces == []
    ensures ContentsOf(types) == Some(c)
  {
    hide TypesOfKind, OwnScalars, Traverse, DecodeEnum, DecodeUnion, DecodeObject, DecodeInterface, DecodeInput,
         RenderEnum, RenderUnion, RenderObject, RenderInterface, RenderInput;
    forall e ensures DecodeEnum(RenderEnum(e)) == Some(e) { EnumsReadBack(e); }
    forall u ensures DecodeUnion(RenderUnion(u, kindOf)) == Some(u) { UnionsReadBack(u, kindOf); }
    forall o ensures DecodeObject(RenderObject(o, kindOf)) == Some(o) { ObjectsReadBack(o, kindOf); }
    forall o: SourceObject | o.interfaces == [] ensures DecodeInterface(RenderInterface(o, kindOf)) == Some(o) {
      ObjectsReadBack(o, kindOf);
    }
    forall n ensures DecodeInput(RenderInput(n, kindOf)) == Some(n) { InputsReadBack(n, kindOf); }
    TraverseIs(ScalarDecoder(), OwnScalars(TypesOfKind(types, SCALAR)), c.scalars);
    TraverseIs(EnumDecoder(), TypesOfKind(types, ENUM), c.enums);
    TraverseIs(UnionDecoder(), TypesOfKind(types, UNION), c.unions);
    TraverseIs(InterfaceDecoder(), TypesOfKind(types, INTERFACE), c.interfaces);
    TraverseIs(ObjectDecoder(), TypesOfKind(types, OBJECT), c.objects);
    TraverseIs(InputDecoder(), TypesOfKind(types, INPUT_OBJECT), c.inputs);
  }
}
