/**
 What the two schema builders of crates/codegen/src/schema fill their tables with: rows
 computed from the definitions of each kind and from an index of names to ids.

 Nothing here depends on where the definitions come from; the builders differ only in the
 order in which they index names, so that both are proved against the same rows.
 */
module SchemaTables {
  import opened Wrappers
  import Ast
  import opened TypeQualifiers
  import opened Schemas

  // ----- Definitions, by kind, in order -----

  datatype SourceField = SourceField(name: string, fieldType: Ast.Type, deprecation: Option<Option<string>>)

  /** An object type, or an interface, which implements nothing. */
  datatype SourceObject = SourceObject(name: string, interfaces: seq<string>, fields: seq<SourceField>)

  datatype SourceUnion = SourceUnion(name: string, members: seq<string>)

  datatype SourceInputField = SourceInputField(name: string, fieldType: Ast.Type)

  datatype SourceInput = SourceInput(name: string, fields: seq<SourceInputField>)

  datatype Contents = Contents(
    scalars: seq<string>, enums: seq<StoredEnum>, unions: seq<SourceUnion>, interfaces: seq<SourceObject>,
    objects: seq<SourceObject>, inputs: seq<SourceInput>)

  datatype Roots = Roots(query: Option<string>, mutation: Option<string>, subscription: Option<string>)

  const DEFAULT_SCALARS: seq<string> := ["ID", "String", "Int", "Float", "Boolean"]

  // ----- Traversing -----

  /** All results, if there are all. */
  function Traverse<T, S>(f: T -> Option<S>, ts: seq<T>): (r: Option<seq<S>>)
    ensures r.Some? ==> |r.value| == |ts| && forall i | 0 <= i < |ts| :: f(ts[i]) == Some(r.value[i])
  {
    if ts == [] then Some([])
    else
      var init := Traverse(f, ts[..|ts| - 1]);
      var last := f(ts[|ts| - 1]);
      if init.Some? && last.Some? then Some(init.value + [last.value]) else None
  }

  lemma {:induction false} TraverseFails<T, S>(f: T -> Option<S>, ts: seq<T>, i: nat)
    requires i < |ts| && f(ts[i]).None?
    ensures Traverse(f, ts).None?
  {
    if i < |ts| - 1 {
      TraverseFails(f, ts[..|ts| - 1], i);
    }
  }

  /** One more, or none of all. */
  lemma TraverseMore<T, S>(f: T -> Option<S>, ts: seq<T>, i: nat, done: seq<S>)
    requires i < |ts| && Traverse(f, ts[..i]) == Some(done)
    ensures f(ts[i]).None? ==> Traverse(f, ts).None?
    ensures f(ts[i]).Some? ==> Traverse(f, ts[..i + 1]) == Some(done + [f(ts[i]).value])
  {
    assert ts[..i + 1][..i] == ts[..i];
    if f(ts[i]).None? {
      TraverseFails(f, ts, i);
    }
  }

  lemma TraverseNext<T, S>(f: T -> Option<S>, ts: seq<T>, done: seq<S>, t: T)
    requires Traverse(f, ts) == Some(done) && f(t).Some?
    ensures Traverse(f, ts + [t]) == Some(done + [f(t).value])
  {
    assert (ts + [t])[..|ts|] == ts;
  }

  lemma TraverseNothing<T, S>(f: T -> Option<S>)
    ensures Traverse(f, []) == Some([])
  {
  }

  lemma {:induction false} TraverseIs<T, S>(f: T -> Option<S>, ts: seq<T>, ss: seq<S>)
    requires |ss| == |ts| && forall i | 0 <= i < |ts| :: f(ts[i]) == Some(ss[i])
    ensures Traverse(f, ts) == Some(ss)
  {
    if ts != [] {
      TraverseIs(f, ts[..|ts| - 1], ss[..|ss| - 1]);
      assert ss == ss[..|ss| - 1] + [ss[|ss| - 1]];
    }
  }

  // ----- The name index -----

  datatype NameKind = Enums | Objects | Interfaces | Unions | Inputs | BuiltinScalars | Scalars

  /** The id of number `i` of its kind; scalars are counted after the built-in ones. */
  function IdOf(kind: NameKind, i: nat): TypeId {
    match kind
    case Enums => EnumId(i)
    case Objects => ObjectId(i)
    case Interfaces => InterfaceId(i)
    case Unions => UnionId(i)
    case Inputs => InputId(i)
    case BuiltinScalars => ScalarId(i)
    case Scalars => ScalarId(|DEFAULT_SCALARS| + i)
  }

  /** The index with the ids for names of one kind, in order. */
  function WithNames(names: map<string, TypeId>, ns: seq<string>, kind: NameKind): map<string, TypeId> {
    if ns == [] then names
    else WithNames(names, ns[..|ns| - 1], kind)[ns[|ns| - 1] := IdOf(kind, |ns| - 1)]
  }

  /** The id of a name of one kind: that of its last definition. */
  function IdIn(ns: seq<string>, kind: NameKind, n: string): (t: TypeId)
    requires n in ns
    ensures exists i: nat :: i < |ns| && ns[i] == n && t == IdOf(kind, i)
  {
    if ns[|ns| - 1] == n then IdOf(kind, |ns| - 1)
    else
      var init := ns[..|ns| - 1];
      assert ns == init + [ns[|ns| - 1]];
      var t := IdIn(init, kind, n);
      assert exists i: nat :: i < |init| && ns[i] == init[i] == n && t == IdOf(kind, i);
      t
  }

  lemma {:induction false} WithNamesGives(names: map<string, TypeId>, ns: seq<string>, kind: NameKind, n: string)
    ensures n in WithNames(names, ns, kind) <==> n in names || n in ns
    ensures n in ns ==> WithNames(names, ns, kind)[n] == IdIn(ns, kind, n)
    ensures n !in ns && n in names ==> WithNames(names, ns, kind)[n] == names[n]
  {
    if ns != [] {
      WithNamesGives(names, ns[..|ns| - 1], kind, n);
      assert ns == ns[..|ns| - 1] + [ns[|ns| - 1]];
    }
  }

  function EnumNames(es: seq<StoredEnum>): seq<string> {
    seq(|es|, i requires 0 <= i < |es| => es[i].name)
  }

  function ObjectNames(os: seq<SourceObject>): seq<string> {
    seq(|os|, i requires 0 <= i < |os| => os[i].name)
  }

  function UnionNames(us: seq<SourceUnion>): seq<string> {
    seq(|us|, i requires 0 <= i < |us| => us[i].name)
  }

  function InputNames(ns: seq<SourceInput>): seq<string> {
    seq(|ns|, i requires 0 <= i < |ns| => ns[i].name)
  }

  function Builtin(): map<string, TypeId> {
    WithNames(map[], DEFAULT_SCALARS, BuiltinScalars)
  }

  /** The first pass of the builder from definitions. */
  function SdlTypeNames(c: Contents): map<string, TypeId> {
    var n1 := WithNames(Builtin(), EnumNames(c.enums), Enums);
    var n2 := WithNames(n1, ObjectNames(c.objects), Objects);
    var n3 := WithNames(n2, ObjectNames(c.interfaces), Interfaces);
    var n4 := WithNames(n3, UnionNames(c.unions), Unions);
    WithNames(n4, InputNames(c.inputs), Inputs)
  }

  /** The whole index of the builder from definitions. */
  function SdlNames(c: Contents): map<string, TypeId> {
    WithNames(SdlTypeNames(c), c.scalars, Scalars)
  }

  /** The first pass of the builder from introspection data. */
  function JsonTypeNames(c: Contents): map<string, TypeId> {
    var n1 := WithNames(Builtin(), UnionNames(c.unions), Unions);
    var n2 := WithNames(n1, ObjectNames(c.interfaces), Interfaces);
    var n3 := WithNames(n2, ObjectNames(c.objects), Objects);
    WithNames(n3, InputNames(c.inputs), Inputs)
  }

  /** Its whole index. */
  function JsonNames(c: Contents): map<string, TypeId> {
    WithNames(WithNames(JsonTypeNames(c), c.scalars, Scalars), EnumNames(c.enums), Enums)
  }

  // ----- Rows -----

  function Find(names: map<string, TypeId>, name: string): Option<TypeId> {
    if name in names then Some(names[name]) else None
  }

  function FieldTypeOf(names: map<string, TypeId>, t: Ast.Type): Option<FieldType> {
    var id := Find(names, NameOf(t));
    if id.None? then None else Some(FieldType(id.value, QualifiersOf(t)))
  }

  function FieldRow(names: map<string, TypeId>, parent: FieldParent, f: SourceField): Option<StoredField> {
    var t := FieldTypeOf(names, f.fieldType);
    if t.None? then None else Some(StoredField(f.name, t.value, parent, f.deprecation))
  }

  /** Interfaces only. */
  function FindInterface(names: map<string, TypeId>, name: string): Option<nat> {
    if name in names && names[name].InterfaceId? then Some(names[name].id) else None
  }

  function FieldRower(names: map<string, TypeId>, parent: FieldParent): SourceField -> Option<StoredField> {
    f => FieldRow(names, parent, f)
  }

  function Finder(names: map<string, TypeId>): string -> Option<TypeId> {
    n => Find(names, n)
  }

  function InterfaceFinder(names: map<string, TypeId>): string -> Option<nat> {
    n => FindInterface(names, n)
  }

  function FieldRows(names: map<string, TypeId>, parent: FieldParent, fs: seq<SourceField>): Option<seq<StoredField>> {
    Traverse(FieldRower(names, parent), fs)
  }

  /** `count` ids from `base` on. */
  function IdsFrom(base: nat, count: nat): (ids: seq<nat>)
    ensures |ids| == count && forall k | 0 <= k < count :: ids[k] == base + k
  {
    seq(count, k requires 0 <= k < count => base + k)
  }

  /** The parent link of the fields of an object, or of an interface. */
  function ParentOf(names: map<string, TypeId>, name: string, isObject: bool): Option<FieldParent> {
    if name !in names then None
    else
      match names[name]
      case ObjectId(i) => if isObject then Some(OfObject(i)) else None
      case InterfaceId(i) => if isObject then None else Some(OfInterface(i))
      case _ => None
  }

  /** Objects or interfaces, and their fields, which get ids from `base` on. */
  datatype Rows = Rows(objects: seq<StoredObject>, fields: seq<StoredField>)

  function ObjectRow(names: map<string, TypeId>, o: SourceObject, isObject: bool, base: nat): Option<Rows> {
    var parent := ParentOf(names, o.name, isObject);
    if parent.None? then None
    else
      var fields := FieldRows(names, parent.value, o.fields);
      var interfaces := Traverse(InterfaceFinder(names), o.interfaces);
      if fields.None? || interfaces.None? then None
      else Some(Rows([StoredObject(o.name, IdsFrom(base, |fields.value|), interfaces.value)], fields.value))
  }

  function ObjectRows(names: map<string, TypeId>, os: seq<SourceObject>, isObject: bool, base: nat): Option<Rows> {
    if os == [] then Some(Rows([], []))
    else
      var init := ObjectRows(names, os[..|os| - 1], isObject, base);
      if init.None? then None
      else
        var last := ObjectRow(names, os[|os| - 1], isObject, base + |init.value.fields|);
        if last.None? then None
        else Some(Rows(init.value.objects + last.value.objects, init.value.fields + last.value.fields))
  }

  /** One row more, or none can be made. */
  lemma OneRowMore(names: map<string, TypeId>, os: seq<SourceObject>, isObject: bool, base: nat, i: nat, rows: Rows)
    requires i < |os| && ObjectRows(names, os[..i], isObject, base) == Some(rows)
    ensures var row := ObjectRow(names, os[i], isObject, base + |rows.fields|);
            && (row.None? ==> ObjectRows(names, os, isObject, base).None?)
            && (row.Some? ==> ObjectRows(names, os[..i + 1], isObject, base) ==
                              Some(Rows(rows.objects + row.value.objects, rows.fields + row.value.fields)))
  {
    hide ObjectRow;
    assert os[..i + 1][..i] == os[..i];
    if ObjectRow(names, os[i], isObject, base + |rows.fields|).None? {
      ObjectRowsFail(names, os, isObject, base, i + 1);
    }
  }

  lemma NoRows(names: map<string, TypeId>, isObject: bool, base: nat)
    ensures ObjectRows(names, [], isObject, base) == Some(Rows([], [])) && AsInterfaces([]) == []
  {
  }

  lemma AsInterfacesBoth(os: seq<StoredObject>, more: seq<StoredObject>)
    ensures AsInterfaces(os) + AsInterfaces(more) == AsInterfaces(os + more)
  {
  }

  lemma {:induction false} ObjectRowsFail(names: map<string, TypeId>, os: seq<SourceObject>, isObject: bool, base: nat,
                                          i: nat)
    requires i <= |os| && ObjectRows(names, os[..i], isObject, base).None?
    ensures ObjectRows(names, os, isObject, base).None?
    decreases |os|
  {
    if i == |os| {
      assert os[..i] == os;
    } else {
      assert os[..|os| - 1][..i] == os[..i];
      ObjectRowsFail(names, os[..|os| - 1], isObject, base, i);
    }
  }

  function UnionRow(names: map<string, TypeId>, u: SourceUnion): Option<StoredUnion> {
    var members := Traverse(Finder(names), u.members);
    if members.None? then None else Some(StoredUnion(u.name, members.value))
  }

  function InputFieldRow(names: map<string, TypeId>, f: SourceInputField): Option<InputField> {
    var t := FieldTypeOf(names, f.fieldType);
    if t.None? then None else Some(InputField(f.name, t.value))
  }

  function InputRow(names: map<string, TypeId>, i: SourceInput): Option<StoredInput> {
    var fields := Traverse(InputFieldRower(names), i.fields);
    if fields.None? then None else Some(StoredInput(i.name, fields.value))
  }

  function UnionRower(names: map<string, TypeId>): SourceUnion -> Option<StoredUnion> {
    u => UnionRow(names, u)
  }

  function InputFieldRower(names: map<string, TypeId>): SourceInputField -> Option<InputField> {
    f => InputFieldRow(names, f)
  }

  function InputRower(names: map<string, TypeId>): SourceInput -> Option<StoredInput> {
    i => InputRow(names, i)
  }

  function AsInterfaces(os: seq<StoredObject>): seq<StoredInterface> {
    seq(|os|, i requires 0 <= i < |os| => StoredInterface(os[i].name, os[i].fields))
  }

  function RootId(names: map<string, TypeId>, name: Option<string>): Option<nat> {
    if name.Some? && name.value in names && names[name.value].ObjectId? then Some(names[name.value].id) else None
  }

  /** All tables; None where a builder panics on a name it cannot find, or finds with another kind. */
  function Built(names: map<string, TypeId>, c: Contents, roots: Roots): Option<Schema> {
    var unions := Traverse(UnionRower(names), c.unions);
    var interfaces := ObjectRows(names, c.interfaces, false, 0);
    var objects := ObjectRows(names, c.objects, true, if interfaces.Some? then |interfaces.value.fields| else 0);
    var inputs := Traverse(InputRower(names), c.inputs);
    if unions.None? || interfaces.None? || objects.None? || inputs.None? then None
    else
      Some(Schema(
             objects.value.objects, interfaces.value.fields + objects.value.fields,
             AsInterfaces(interfaces.value.objects), unions.value, DEFAULT_SCALARS + c.scalars, c.enums, inputs.value,
             names, RootId(names, roots.query), RootId(names, roots.mutation), RootId(names, roots.subscription)))
  }
}
