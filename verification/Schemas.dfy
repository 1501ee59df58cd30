/** The schema tables of crates/codegen/src/schema.rs, indexed by ids, with the name index. */
module Schemas {
  import opened Wrappers
  import opened TypeQualifiers

  datatype TypeId =
    | ObjectId(id: nat)
    | ScalarId(id: nat)
    | InterfaceId(id: nat)
    | UnionId(id: nat)
    | EnumId(id: nat)
    | InputId(id: nat)

  datatype FieldType = FieldType(id: TypeId, qualifiers: seq<Qualifier>)

  datatype FieldParent = OfObject(id: nat) | OfInterface(id: nat)

  datatype StoredField = StoredField(
    name: string, fieldType: FieldType, parent: FieldParent, deprecation: Option<Option<string>>)

  datatype StoredObject = StoredObject(name: string, fields: seq<nat>, implementsInterfaces: seq<nat>)

  datatype StoredInterface = StoredInterface(name: string, fields: seq<nat>)

  datatype StoredUnion = StoredUnion(name: string, variants: seq<TypeId>)

  datatype StoredEnum = StoredEnum(name: string, variants: seq<string>)

  datatype InputField = InputField(name: string, fieldType: FieldType)

  datatype StoredInput = StoredInput(name: string, fields: seq<InputField>)

  datatype Schema = Schema(
    objects: seq<StoredObject>,
    fields: seq<StoredField>,
    interfaces: seq<StoredInterface>,
    unions: seq<StoredUnion>,
    scalars: seq<string>,
    enums: seq<StoredEnum>,
    inputs: seq<StoredInput>,
    names: map<string, TypeId>,
    queryType: Option<nat>,
    mutationType: Option<nat>,
    subscriptionType: Option<nat>)
  {
    function FindType(name: string): Option<TypeId> {
      if name in names then Some(names[name]) else None
    }

    predicate Has(t: TypeId) {
      match t
      case ObjectId(i) => i < |objects|
      case ScalarId(i) => i < |scalars|
      case InterfaceId(i) => i < |interfaces|
      case UnionId(i) => i < |unions|
      case EnumId(i) => i < |enums|
      case InputId(i) => i < |inputs|
    }

    function TypeName(t: TypeId): string
      requires Has(t)
    {
      match t
      case ObjectId(i) => objects[i].name
      case ScalarId(i) => scalars[i]
      case InterfaceId(i) => interfaces[i].name
      case UnionId(i) => unions[i].name
      case EnumId(i) => enums[i].name
      case InputId(i) => inputs[i].name
    }

    /** The name index is in step with the tables. */
    predicate NamesInStep() {
      forall n | n in names :: Has(names[n]) && TypeName(names[n]) == n
    }

    /** Every id stored in a table can be looked up. */
    predicate IdsInRange() {
      && (forall i | 0 <= i < |fields| :: Has(fields[i].fieldType.id))
      && (forall i, k | 0 <= i < |objects| && 0 <= k < |objects[i].fields| :: objects[i].fields[k] < |fields|)
      && (forall i, k | 0 <= i < |interfaces| && 0 <= k < |interfaces[i].fields| :: interfaces[i].fields[k] < |fields|)
      && (forall i, k | 0 <= i < |unions| && 0 <= k < |unions[i].variants| :: Has(unions[i].variants[k]))
      && (forall i, k | 0 <= i < |inputs| && 0 <= k < |inputs[i].fields| :: Has(inputs[i].fields[k].fieldType.id))
      && (queryType.Some? ==> queryType.value < |objects|)
      && (mutationType.Some? ==> mutationType.value < |objects|)
      && (subscriptionType.Some? ==> subscriptionType.value < |objects|)
    }

    predicate Valid() {
      NamesInStep() && IdsInRange()
    }

    /** The field ids of an object or an interface. */
    function FieldsOf(t: TypeId): seq<nat>
      requires Has(t)
    {
      match t
      case ObjectId(i) => objects[i].fields
      case InterfaceId(i) => interfaces[i].fields
      case _ => []
    }

    predicate IsComposite(t: TypeId) {
      t.ObjectId? || t.InterfaceId? || t.UnionId?
    }

    /** The object types a value of type `t` can have, when `t` is a union or an interface. */
    function PossibleTypes(t: TypeId): seq<TypeId>
      requires Has(t)
    {
      match t
      case UnionId(i) => unions[i].variants
      case InterfaceId(i) => Implementors(i, 0)
      case _ => []
    }

    /** Objects from number `from` on that implement interface `i`, in table order. */
    function Implementors(i: nat, from: nat): (ts: seq<TypeId>)
      requires from <= |objects|
      ensures forall t | t in ts :: t.ObjectId? && from <= t.id < |objects| && i in objects[t.id].implementsInterfaces
      ensures forall o | from <= o < |objects| && i in objects[o].implementsInterfaces :: ObjectId(o) in ts
      decreases |objects| - from
    {
      if from == |objects| then []
      else if i in objects[from].implementsInterfaces then [ObjectId(from)] + Implementors(i, from + 1)
      else Implementors(i, from + 1)
    }
  }

  /** The first field id in `ids` whose field has the name. */
  function FindField(schema: Schema, ids: seq<nat>, name: string): (r: Option<nat>)
    requires forall k | 0 <= k < |ids| :: ids[k] < |schema.fields|
    ensures r.Some? ==> r.value in ids && r.value < |schema.fields| && schema.fields[r.value].name == name
    ensures r.None? ==> forall k | 0 <= k < |ids| :: schema.fields[ids[k]].name != name
  {
    if ids == [] then None
    else if schema.fields[ids[0]].name == name then Some(ids[0])
    else FindField(schema, ids[1..], name)
  }
}
