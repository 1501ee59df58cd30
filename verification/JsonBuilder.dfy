/**
 Building a schema from introspection data (crates/codegen/src/schema/json_conversion.rs).
 False and None stand for a panic.
 */
module JsonBuilder {
  import opened Wrappers
  import opened TypeQualifiers
  import opened Schemas
  import opened SchemaTables
  import opened SchemaBuilders
  import opened Introspection

  /** The loop of `from_json_type_inner`, down to the named type. */
  method ResolveTypeRef(s: SchemaBuilder, t: TypeRef) returns (r: Option<FieldType>)
    ensures r == (match DecodeType(t)
                  case None => None
                  case Some(decoded) => FieldTypeOf(s.names, decoded))
  {
    var qualifiers: seq<Qualifier> := [];
    var inner := t;
    while (inner.kind == Some(NON_NULL) || inner.kind == Some(LIST)) && inner.ofType.Some?
      invariant DecodeType(t).Some? == DecodeType(inner).Some?
      invariant DecodeType(t).Some? ==>
                  && NameOf(DecodeType(inner).value) == NameOf(DecodeType(t).value)
                  && qualifiers + QualifiersOf(DecodeType(inner).value) == QualifiersOf(DecodeType(t).value)
      decreases inner
    {
      qualifiers := qualifiers + [if inner.kind == Some(LIST) then Qualifier.List else Required];
      inner := inner.ofType.value;
    }
    if inner.kind.None? || inner.ofType.Some? || inner.name.None? || inner.name.value !in s.names {
      return None;
    }
    assert qualifiers + [] == qualifiers;
    return Some(FieldType(s.names[inner.name.value], qualifiers));
  }

  /** Fields read and stored, if all can be. */
  function FieldsStored(names: map<string, TypeId>, parent: FieldParent, fs: seq<JsonField>): Option<seq<StoredField>> {
    var sources := Traverse(FieldDecoder(), fs);
    if sources.None? then None else FieldRows(names, parent, sources.value)
  }

  method PushFields(s: SchemaBuilder, fs: seq<JsonField>, parent: FieldParent) returns (ids: Option<seq<nat>>)
    modifies s`fields
    ensures var rows := FieldsStored(s.names, parent, fs);
            && ids.Some? == rows.Some?
            && (rows.Some? ==>
                  s.fields == old(s.fields) + rows.value && ids.value == IdsFrom(|old(s.fields)|, |rows.value|))
  {
    hide DecodeField, FieldRow, Traverse;
    ghost var row := FieldRower(s.names, parent);
    TraverseNothing(FieldDecoder());
    TraverseNothing(row);
    var fieldIds: seq<nat> := [];
    ghost var sources: seq<SourceField>, rows: seq<StoredField> := [], [];
    for i := 0 to |fs|
      invariant Traverse(FieldDecoder(), fs[..i]) == Some(sources) && Traverse(row, sources) == Some(rows)
      invariant s.fields == old(s.fields) + rows && fieldIds == IdsFrom(|old(s.fields)|, |rows|)
    {
      TraverseMore(FieldDecoder(), fs, i, sources);
      var f := fs[i];
      var stored := ReadField(s, f, parent);
      if stored.None? {
        FieldsFail(s.names, parent, fs, i);
        return None;
      }
      var id := s.PushField(stored.value);
      fieldIds := fieldIds + [id];
      TraverseNext(row, sources, rows, DecodeField(f).value);
      sources := sources + [DecodeField(f).value];
      rows := rows + [stored.value];
    }
    assert fs[..|fs|] == fs;
    return Some(fieldIds);
  }

  method ReadField(s: SchemaBuilder, f: JsonField, parent: FieldParent) returns (r: Option<StoredField>)
    ensures r == (match DecodeField(f)
                  case None => None
                  case Some(source) => FieldRow(s.names, parent, source))
  {
    if f.name.None? || f.fieldType.None? {
      return None;
    }
    var t := ResolveTypeRef(s, f.fieldType.value);
    if t.None? {
      return None;
    }
    var deprecation := if f.isDeprecated == Some(true) then Some(f.deprecationReason) else None;
    return Some(StoredField(f.name.value, t.value, parent, deprecation));
  }

  lemma FieldsFail(names: map<string, TypeId>, parent: FieldParent, fs: seq<JsonField>, i: nat)
    requires i < |fs|
    requires DecodeField(fs[i]).None? || FieldRow(names, parent, DecodeField(fs[i]).value).None?
    ensures FieldsStored(names, parent, fs).None?
  {
    if DecodeField(fs[i]).None? {
      TraverseFails(FieldDecoder(), fs, i);
    } else if Traverse(FieldDecoder(), fs).Some? {
      var sources := Traverse(FieldDecoder(), fs).value;
      assert FieldDecoder()(fs[i]) == Some(sources[i]);
      TraverseFails(FieldRower(names, parent), sources, i);
    }
  }

  method IngestInterface(s: SchemaBuilder, t: FullType) returns (ok: bool)
    modifies s`fields, s`interfaces
    ensures var o := DecodeInterface(t);
            var row := if o.None? then None else ObjectRow(s.names, o.value, false, |old(s.fields)|);
            && ok == row.Some?
            && (ok ==>
                  && s.interfaces == old(s.interfaces) + AsInterfaces(row.value.objects)
                  && s.fields == old(s.fields) + row.value.fields)
  {
    if t.name.None? {
      return false;
    }
    var parent := ParentOf(s.names, t.name.value, false);
    if parent.None? || t.fields.None? {
      return false;
    }
    var ids := PushFields(s, t.fields.value, parent.value);
    if ids.None? {
      return false;
    }
    assert Traverse(InterfaceFinder(s.names), []) == Some([]);
    s.interfaces := s.interfaces + [StoredInterface(t.name.value, ids.value)];
    return true;
  }

  method IngestObject(s: SchemaBuilder, t: FullType) returns (ok: bool)
    modifies s`fields, s`objects
    ensures var o := DecodeObject(t);
            var row := if o.None? then None else ObjectRow(s.names, o.value, true, |old(s.fields)|);
            && ok == row.Some?
            && (ok ==> s.objects == old(s.objects) + row.value.objects && s.fields == old(s.fields) + row.value.fields)
  {
    if t.name.None? {
      return false;
    }
    var parent := ParentOf(s.names, t.name.value, true);
    if parent.None? || t.fields.None? {
      return false;
    }
    var ids := PushFields(s, t.fields.value, parent.value);
    if ids.None? {
      return false;
    }
    var implemented := if t.interfaces.None? then Some([]) else Traverse(RefName(), t.interfaces.value);
    if implemented.None? {
      return false;
    }
    var interfaces := Traverse(InterfaceFinder(s.names), implemented.value);
    if interfaces.None? {
      return false;
    }
    s.objects := s.objects + [StoredObject(t.name.value, ids.value, interfaces.value)];
    return true;
  }

  method IngestUnion(s: SchemaBuilder, t: FullType) returns (ok: bool)
    modifies s`unions
    ensures var u := DecodeUnion(t);
            var row := if u.None? then None else UnionRow(s.names, u.value);
            && ok == row.Some?
            && (ok ==> s.unions == old(s.unions) + [row.value])
  {
    if t.possibleTypes.None? {
      return false;
    }
    var members := Traverse(RefName(), t.possibleTypes.value);
    if members.None? || t.name.None? {
      return false;
    }
    var variants := Traverse(Finder(s.names), members.value);
    if variants.None? {
      return false;
    }
    s.unions := s.unions + [StoredUnion(t.name.value, variants.value)];
    return true;
  }

  method IngestInput(s: SchemaBuilder, t: FullType) returns (ok: bool)
    modifies s`inputs
    ensures var n := DecodeInput(t);
            var row := if n.None? then None else InputRow(s.names, n.value);
            && ok == row.Some?
            && (ok ==> s.inputs == old(s.inputs) + [row.value])
  {
    hide DecodeType, FieldTypeOf, Traverse;
    if t.inputFields.None? {
      return false;
    }
    var fs := t.inputFields.value;
    ghost var row := InputFieldRower(s.names);
    TraverseNothing(InputFieldDecoder());
    TraverseNothing(row);
    var fields: seq<InputField> := [];
    ghost var sources: seq<SourceInputField> := [];
    for i := 0 to |fs|
      invariant s.inputs == old(s.inputs)
      invariant Traverse(InputFieldDecoder(), fs[..i]) == Some(sources) && Traverse(row, sources) == Some(fields)
    {
      TraverseMore(InputFieldDecoder(), fs, i, sources);
      var r := ResolveTypeRef(s, fs[i].fieldType);
      if r.None? {
        InputFieldsFail(s.names, fs, i);
        return false;
      }
      var source := DecodeInputField(fs[i]).value;
      TraverseNext(row, sources, fields, source);
      sources := sources + [source];
      fields := fields + [InputField(fs[i].name, r.value)];
    }
    assert fs[..|fs|] == fs;
    if t.name.None? {
      return false;
    }
    var input := StoredInput(t.name.value, fields);
    assert InputRow(s.names, DecodeInput(t).value) == Some(input);
    s.inputs := s.inputs + [input];
    return true;
  }

  lemma InputFieldsFail(names: map<string, TypeId>, fs: seq<JsonInputField>, i: nat)
    requires i < |fs|
    requires DecodeInputField(fs[i]).None? || InputFieldRow(names, DecodeInputField(fs[i]).value).None?
    ensures var sources := Traverse(InputFieldDecoder(), fs);
            sources.None? || Traverse(InputFieldRower(names), sources.value).None?
  {
    if DecodeInputField(fs[i]).None? {
      TraverseFails(InputFieldDecoder(), fs, i);
    } else if Traverse(InputFieldDecoder(), fs).Some? {
      var sources := Traverse(InputFieldDecoder(), fs).value;
      assert InputFieldDecoder()(fs[i]) == Some(sources[i]);
      TraverseFails(InputFieldRower(names), sources, i);
    }
  }

  // ----- The passes -----

  /** The names of the types of one kind, numbered. */
  method InsertTypeNames(s: SchemaBuilder, ts: seq<FullType>, kind: NameKind) returns (ok: bool)
    modifies s`names
    ensures ok == Traverse(ScalarDecoder(), ts).Some?
    ensures ok ==> s.names == WithNames(old(s.names), Traverse(ScalarDecoder(), ts).value, kind)
  {
    var ns := Traverse(ScalarDecoder(), ts);
    if ns.None? {
      return false;
    }
    s.InsertNames(ns.value, kind);
    return true;
  }

  /** What is decoded has the names that the first pass takes. */
  lemma {:induction false} NamesDecoded<S>(decode: FullType -> Option<S>, ts: seq<FullType>, nameOf: S -> string)
    requires Traverse(decode, ts).Some?
    requires forall t | decode(t).Some? :: t.name == Some(nameOf(decode(t).value))
    ensures Traverse(ScalarDecoder(), ts) == Some(NamesBy(nameOf, Traverse(decode, ts).value))
  {
    var ss := Traverse(decode, ts).value;
    forall i | 0 <= i < |ts| ensures ScalarDecoder()(ts[i]) == Some(NamesBy(nameOf, ss)[i]) {
      assert decode(ts[i]) == Some(ss[i]);
    }
    TraverseIs(ScalarDecoder(), ts, NamesBy(nameOf, ss));
  }

  function NamesBy<S>(nameOf: S -> string, ss: seq<S>): seq<string> {
    seq(|ss|, i requires 0 <= i < |ss| => nameOf(ss[i]))
  }

  lemma AllNamesDecoded(types: seq<Option<FullType>>)
    requires ContentsOf(types).Some?
    ensures var c := ContentsOf(types).value;
            && Traverse(ScalarDecoder(), TypesOfKind(types, UNION)) == Some(UnionNames(c.unions))
            && Traverse(ScalarDecoder(), TypesOfKind(types, INTERFACE)) == Some(ObjectNames(c.interfaces))
            && Traverse(ScalarDecoder(), TypesOfKind(types, OBJECT)) == Some(ObjectNames(c.objects))
            && Traverse(ScalarDecoder(), TypesOfKind(types, INPUT_OBJECT)) == Some(InputNames(c.inputs))
  {
    hide Traverse, TypesOfKind, OwnScalars, DecodeScalar;
    var c := ContentsOf(types).value;
    NamesDecoded(UnionDecoder(), TypesOfKind(types, UNION), (u: SourceUnion) => u.name);
    NamesDecoded(InterfaceDecoder(), TypesOfKind(types, INTERFACE), (o: SourceObject) => o.name);
    NamesDecoded(ObjectDecoder(), TypesOfKind(types, OBJECT), (o: SourceObject) => o.name);
    NamesDecoded(InputDecoder(), TypesOfKind(types, INPUT_OBJECT), (n: SourceInput) => n.name);
    assert NamesBy((u: SourceUnion) => u.name, c.unions) == UnionNames(c.unions);
    assert NamesBy((o: SourceObject) => o.name, c.interfaces) == ObjectNames(c.interfaces);
    assert NamesBy((o: SourceObject) => o.name, c.objects) == ObjectNames(c.objects);
    assert NamesBy((n: SourceInput) => n.name, c.inputs) == InputNames(c.inputs);
  }

  function NamesOfKind(types: seq<Option<FullType>>, kind: TypeKind): Option<seq<string>> {
    Traverse(ScalarDecoder(), TypesOfKind(types, kind))
  }

  /** The index after the first pass, if no name it takes is missing. */
  function FirstIndex(types: seq<Option<FullType>>): Option<map<string, TypeId>> {
    var unions, interfaces := NamesOfKind(types, UNION), NamesOfKind(types, INTERFACE);
    var objects, inputs := NamesOfKind(types, OBJECT), NamesOfKind(types, INPUT_OBJECT);
    if unions.None? || interfaces.None? || objects.None? || inputs.None? then None
    else
      var n1 := WithNames(Builtin(), unions.value, Unions);
      var n2 := WithNames(n1, interfaces.value, Interfaces);
      Some(WithNames(WithNames(n2, objects.value, Objects), inputs.value, Inputs))
  }

  /** Where the contents can be read, the names are those of the contents. */
  lemma FirstIndexIs(types: seq<Option<FullType>>)
    requires ContentsOf(types).Some?
    ensures FirstIndex(types) == Some(JsonTypeNames(ContentsOf(types).value))
  {
    hide ContentsOf, Traverse, TypesOfKind, Builtin;
    AllNamesDecoded(types);
  }

  /** `build_names_map`: panics exactly if a name of one of the four kinds is missing. */
  method BuildNamesMap(s: SchemaBuilder, types: seq<Option<FullType>>) returns (ok: bool)
    requires s.names == Builtin()
    modifies s`names
    ensures ok == FirstIndex(types).Some?
    ensures ok ==> s.names == FirstIndex(types).value
    ensures ContentsOf(types).Some? ==> ok && s.names == JsonTypeNames(ContentsOf(types).value)
  {
    hide ContentsOf, Traverse, TypesOfKind, Builtin;
    if ContentsOf(types).Some? {
      FirstIndexIs(types);
    }
    ok := InsertTypeNames(s, TypesOfKind(types, UNION), Unions);
    if !ok {
      return;
    }
    ok := InsertTypeNames(s, TypesOfKind(types, INTERFACE), Interfaces);
    if !ok {
      return;
    }
    ok := InsertTypeNames(s, TypesOfKind(types, OBJECT), Objects);
    if !ok {
      return;
    }
    ok := InsertTypeNames(s, TypesOfKind(types, INPUT_OBJECT), Inputs);
  }

  // What each step of the second pass makes.

  function ScalarsOf(types: seq<Option<FullType>>): Option<seq<string>> {
    Traverse(ScalarDecoder(), OwnScalars(TypesOfKind(types, SCALAR)))
  }

  function EnumsOf(types: seq<Option<FullType>>): Option<seq<StoredEnum>> {
    Traverse(EnumDecoder(), TypesOfKind(types, ENUM))
  }

  function InterfaceRowsOf(types: seq<Option<FullType>>, names: map<string, TypeId>): Option<Rows> {
    var os := Traverse(InterfaceDecoder(), TypesOfKind(types, INTERFACE));
    if os.None? then None else ObjectRows(names, os.value, false, 0)
  }

  function ObjectRowsOf(types: seq<Option<FullType>>, names: map<string, TypeId>, base: nat): Option<Rows> {
    var os := Traverse(ObjectDecoder(), TypesOfKind(types, OBJECT));
    if os.None? then None else ObjectRows(names, os.value, true, base)
  }

  function UnionRowsOf(types: seq<Option<FullType>>, names: map<string, TypeId>): Option<seq<StoredUnion>> {
    var us := Traverse(UnionDecoder(), TypesOfKind(types, UNION));
    if us.None? then None else Traverse(UnionRower(names), us.value)
  }

  function InputRowsOf(types: seq<Option<FullType>>, names: map<string, TypeId>): Option<seq<StoredInput>> {
    var ns := Traverse(InputDecoder(), TypesOfKind(types, INPUT_OBJECT));
    if ns.None? then None else Traverse(InputRower(names), ns.value)
  }

  /** All of it. */
  function Converted(typeNames: map<string, TypeId>, types: seq<Option<FullType>>, roots: Roots): Option<Schema> {
    var scalars, enums := ScalarsOf(types), EnumsOf(types);
    if scalars.None? || enums.None? then None
    else
      var names := WithNames(WithNames(typeNames, scalars.value, Scalars), EnumNames(enums.value), Enums);
      var interfaces := InterfaceRowsOf(types, names);
      if interfaces.None? then None
      else
        var objects := ObjectRowsOf(types, names, |interfaces.value.fields|);
        var unions, inputs := UnionRowsOf(types, names), InputRowsOf(types, names);
        if objects.None? || unions.None? || inputs.None? then None
        else
          Some(Schema(
                 objects.value.objects, interfaces.value.fields + objects.value.fields,
                 AsInterfaces(interfaces.value.objects), unions.value, DEFAULT_SCALARS + scalars.value, enums.value,
                 inputs.value, names, RootId(names, roots.query), RootId(names, roots.mutation),
                 RootId(names, roots.subscription)))
  }

  /** Step by step or from the whole contents, the same is built. */
  lemma ConvertedIsBuilt(typeNames: map<string, TypeId>, types: seq<Option<FullType>>, roots: Roots)
    ensures Converted(typeNames, types, roots) ==
            match ContentsOf(types)
            case None => None
            case Some(c) =>
              Built(WithNames(WithNames(typeNames, c.scalars, Scalars), EnumNames(c.enums), Enums), c, roots)
  {
    hide Traverse, TypesOfKind, OwnScalars, ObjectRows, AsInterfaces, RootId, WithNames, EnumNames;
  }

  method IngestScalars(s: SchemaBuilder, types: seq<Option<FullType>>) returns (ok: bool)
    requires s.scalars == DEFAULT_SCALARS
    modifies s`scalars, s`names
    ensures var ns := ScalarsOf(types);
            && ok == ns.Some?
            && (ok ==> s.scalars == DEFAULT_SCALARS + ns.value && s.names == WithNames(old(s.names), ns.value, Scalars))
  {
    hide Traverse, TypesOfKind, OwnScalars;
    var ts := OwnScalars(TypesOfKind(types, SCALAR));
    TraverseNothing(ScalarDecoder());
    ghost var ns: seq<string> := [];
    for i := 0 to |ts|
      invariant Traverse(ScalarDecoder(), ts[..i]) == Some(ns)
      invariant s.scalars == DEFAULT_SCALARS + ns && s.names == WithNames(old(s.names), ns, Scalars)
    {
      TraverseMore(ScalarDecoder(), ts, i, ns);
      if ts[i].name.None? {
        return false;
      }
      assert (ns + [ts[i].name.value])[..|ns|] == ns;
      s.IngestScalar(ts[i].name.value);
      ns := ns + [ts[i].name.value];
    }
    assert ts[..|ts|] == ts;
    return true;
  }

  method IngestEnums(s: SchemaBuilder, types: seq<Option<FullType>>) returns (ok: bool)
    requires s.enums == []
    modifies s`enums, s`names
    ensures var es := EnumsOf(types);
            && ok == es.Some?
            && (ok ==> s.enums == es.value && s.names == WithNames(old(s.names), EnumNames(es.value), Enums))
  {
    hide Traverse, TypesOfKind, OwnScalars;
    var ts := TypesOfKind(types, ENUM);
    TraverseNothing(EnumDecoder());
    for i := 0 to |ts|
      invariant Traverse(EnumDecoder(), ts[..i]) == Some(s.enums)
      invariant s.names == WithNames(old(s.names), EnumNames(s.enums), Enums)
    {
      TraverseMore(EnumDecoder(), ts, i, s.enums);
      var t := ts[i];
      if t.name.None? || t.enumValues.None? {
        return false;
      }
      var values := Traverse(Present(), t.enumValues.value);
      if values.None? {
        return false;
      }
      var e := StoredEnum(t.name.value, values.value);
      EnumNamesMore(s.enums, e);
      s.names := s.names[e.name := EnumId(|s.enums|)];
      s.enums := s.enums + [e];
    }
    assert ts[..|ts|] == ts;
    return true;
  }

  lemma EnumNamesMore(es: seq<StoredEnum>, e: StoredEnum)
    ensures EnumNames(es + [e])[..|es|] == EnumNames(es) && EnumNames(es + [e])[|es|] == e.name
  {
  }

  method IngestInterfaces(s: SchemaBuilder, types: seq<Option<FullType>>) returns (ok: bool)
    requires s.interfaces == [] && s.fields == []
    modifies s`fields, s`interfaces
    ensures var rows := InterfaceRowsOf(types, s.names);
            && ok == rows.Some?
            && (ok ==> s.interfaces == AsInterfaces(rows.value.objects) && s.fields == rows.value.fields)
  {
    hide Traverse, TypesOfKind, OwnScalars, ObjectRow, ObjectRows, AsInterfaces, DecodeInterface;
    var ts := TypesOfKind(types, INTERFACE);
    ghost var base, names := |s.fields|, s.names;
    TraverseNothing(InterfaceDecoder());
    NoRows(names, false, base);
    ghost var os: seq<SourceObject>, rows := [], Rows([], []);
    for i := 0 to |ts|
      invariant Traverse(InterfaceDecoder(), ts[..i]) == Some(os)
      invariant ObjectRows(names, os, false, base) == Some(rows)
      invariant s.interfaces == AsInterfaces(rows.objects) && s.fields == old(s.fields) + rows.fields
    {
      TraverseMore(InterfaceDecoder(), ts, i, os);
      ghost var o := DecodeInterface(ts[i]);
      ghost var row := if o.None? then None else ObjectRow(names, o.value, false, |s.fields|);
      if o.Some? {
        NextRow(names, os, o.value, false, base, rows);
        RowsOfPart(names, InterfaceDecoder(), ts, i, os, false, base);
      }
      var one := IngestInterface(s, ts[i]);
      if !one {
        return false;
      }
      AsInterfacesBoth(rows.objects, row.value.objects);
      os := os + [o.value];
      rows := Rows(rows.objects + row.value.objects, rows.fields + row.value.fields);
    }
    assert ts[..|ts|] == ts;
    return true;
  }

  method IngestObjects(s: SchemaBuilder, types: seq<Option<FullType>>) returns (ok: bool)
    requires s.objects == []
    modifies s`fields, s`objects
    ensures var rows := ObjectRowsOf(types, s.names, |old(s.fields)|);
            && ok == rows.Some?
            && (ok ==> s.objects == rows.value.objects && s.fields == old(s.fields) + rows.value.fields)
  {
    hide Traverse, TypesOfKind, OwnScalars, ObjectRow, ObjectRows, DecodeObject;
    var ts := TypesOfKind(types, OBJECT);
    ghost var base, names := |s.fields|, s.names;
    TraverseNothing(ObjectDecoder());
    NoRows(names, true, base);
    ghost var os: seq<SourceObject>, rows := [], Rows([], []);
    for i := 0 to |ts|
      invariant Traverse(ObjectDecoder(), ts[..i]) == Some(os)
      invariant ObjectRows(names, os, true, base) == Some(rows)
      invariant s.objects == rows.objects && s.fields == old(s.fields) + rows.fields
    {
      TraverseMore(ObjectDecoder(), ts, i, os);
      ghost var o := DecodeObject(ts[i]);
      ghost var row := if o.None? then None else ObjectRow(names, o.value, true, |s.fields|);
      if o.Some? {
        NextRow(names, os, o.value, true, base, rows);
        RowsOfPart(names, ObjectDecoder(), ts, i, os, true, base);
      }
      var one := IngestObject(s, ts[i]);
      if !one {
        return false;
      }
      os := os + [o.value];
      rows := Rows(rows.objects + row.value.objects, rows.fields + row.value.fields);
    }
    assert ts[..|ts|] == ts;
    return true;
  }

  lemma NextRow(names: map<string, TypeId>, os: seq<SourceObject>, o: SourceObject, isObject: bool, base: nat,
                rows: Rows)
    requires ObjectRows(names, os, isObject, base) == Some(rows)
    ensures var row := ObjectRow(names, o, isObject, base + |rows.fields|);
            && (row.None? ==> ObjectRows(names, os + [o], isObject, base).None?)
            && (row.Some? ==> ObjectRows(names, os + [o], isObject, base) ==
                              Some(Rows(rows.objects + row.value.objects, rows.fields + row.value.fields)))
  {
    hide ObjectRow;
    assert (os + [o])[..|os|] == os;
  }

  /** Rows that cannot be made of the first types cannot be made of all. */
  lemma {:induction false} RowsOfPart(names: map<string, TypeId>, decode: FullType -> Option<SourceObject>,
                                      ts: seq<FullType>, i: nat, os: seq<SourceObject>, isObject: bool, base: nat)
    requires i < |ts| && Traverse(decode, ts[..i]) == Some(os) && decode(ts[i]).Some?
    ensures ObjectRows(names, os + [decode(ts[i]).value], isObject, base).None? ==>
              var all := Traverse(decode, ts);
              all.None? || ObjectRows(names, all.value, isObject, base).None?
  {
    var all := Traverse(decode, ts);
    if all.Some? {
      TraverseIs(decode, ts[..i], all.value[..i]);
      assert all.value[..i + 1] == os + [decode(ts[i]).value];
      if ObjectRows(names, all.value[..i + 1], isObject, base).None? {
        ObjectRowsFail(names, all.value, isObject, base, i + 1);
      }
    }
  }

  method IngestUnions(s: SchemaBuilder, types: seq<Option<FullType>>) returns (ok: bool)
    requires s.unions == []
    modifies s`unions
    ensures var rows := UnionRowsOf(types, s.names);
            ok == rows.Some? && (ok ==> s.unions == rows.value)
  {
    hide Traverse, TypesOfKind, OwnScalars, DecodeUnion, UnionRow;
    var ts := TypesOfKind(types, UNION);
    ghost var row := UnionRower(s.names);
    TraverseNothing(UnionDecoder());
    TraverseNothing(row);
    ghost var us: seq<SourceUnion> := [];
    for i := 0 to |ts|
      invariant Traverse(UnionDecoder(), ts[..i]) == Some(us) && Traverse(row, us) == Some(s.unions)
    {
      TraverseMore(UnionDecoder(), ts, i, us);
      if DecodeUnion(ts[i]).Some? {
        BothFail(UnionDecoder(), row, ts, i);
        if row(DecodeUnion(ts[i]).value).Some? {
          TraverseNext(row, us, s.unions, DecodeUnion(ts[i]).value);
        }
      }
      var one := IngestUnion(s, ts[i]);
      if !one {
        return false;
      }
      us := us + [DecodeUnion(ts[i]).value];
    }
    assert ts[..|ts|] == ts;
    return true;
  }

  method IngestInputs(s: SchemaBuilder, types: seq<Option<FullType>>) returns (ok: bool)
    requires s.inputs == []
    modifies s`inputs
    ensures var rows := InputRowsOf(types, s.names);
            ok == rows.Some? && (ok ==> s.inputs == rows.value)
  {
    hide Traverse, TypesOfKind, OwnScalars, DecodeInput, InputRow;
    var ts := TypesOfKind(types, INPUT_OBJECT);
    ghost var row := InputRower(s.names);
    TraverseNothing(InputDecoder());
    TraverseNothing(row);
    ghost var ns: seq<SourceInput> := [];
    for i := 0 to |ts|
      invariant Traverse(InputDecoder(), ts[..i]) == Some(ns) && Traverse(row, ns) == Some(s.inputs)
    {
      TraverseMore(InputDecoder(), ts, i, ns);
      if DecodeInput(ts[i]).Some? {
        BothFail(InputDecoder(), row, ts, i);
        if row(DecodeInput(ts[i]).value).Some? {
          TraverseNext(row, ns, s.inputs, DecodeInput(ts[i]).value);
        }
      }
      var one := IngestInput(s, ts[i]);
      if !one {
        return false;
      }
      ns := ns + [DecodeInput(ts[i]).value];
    }
    assert ts[..|ts|] == ts;
    return true;
  }

  /** One decoded type of which no row can be made. */
  lemma BothFail<S, R>(decode: FullType -> Option<S>, row: S -> Option<R>, ts: seq<FullType>, i: nat)
    requires i < |ts| && decode(ts[i]).Some?
    ensures row(decode(ts[i]).value).None? ==>
              var all := Traverse(decode, ts);
              all.None? || Traverse(row, all.value).None?
  {
    var all := Traverse(decode, ts);
    if all.Some? && row(decode(ts[i]).value).None? {
      TraverseFails(row, all.value, i);
    }
  }

  /** The second pass, `convert`. */
  method Convert(s: SchemaBuilder, types: seq<Option<FullType>>, roots: Roots) returns (ok: bool)
    requires s.Abs() == Schema([], [], [], [], DEFAULT_SCALARS, [], [], s.names, None, None, None)
    modifies s
    ensures var r := Converted(old(s.names), types, roots);
            ok == r.Some? && (ok ==> s.Abs() == r.value)
  {
    hide AsInterfaces, RootId, WithNames, EnumNames,
         ScalarsOf, EnumsOf, InterfaceRowsOf, ObjectRowsOf, UnionRowsOf, InputRowsOf;
    ok := IngestScalars(s, types);
    if !ok {
      return;
    }
    ok := IngestEnums(s, types);
    if !ok {
      return;
    }
    ok := IngestInterfaces(s, types);
    if !ok {
      return;
    }
    ok := IngestObjects(s, types);
    if !ok {
      return;
    }
    ok := IngestUnions(s, types);
    if !ok {
      return;
    }
    ok := IngestInputs(s, types);
    if !ok {
      return;
    }
    s.SetRoots(roots);
  }

  /** `build_schema`; None stands for a panic. */
  method BuildSchema(j: JsonSchema) returns (r: Option<SchemaBuilder>)
    ensures match FromJson(j)
            case None => r.None?
            case Some(schema) => r.Some? && fresh(r.value) && r.value.Abs() == schema
  {
    hide ContentsOf, Built, RootsOf, JsonTypeNames, Builtin, Converted;
    if j.types.None? {
      return None;
    }
    var s := new SchemaBuilder();
    var ok := BuildNamesMap(s, j.types.value);
    if !ok {
      return None;
    }
    ConvertedIsBuilt(s.names, j.types.value, RootsOf(j));
    ok := Convert(s, j.types.value, RootsOf(j));
    return if ok then Some(s) else None;
  }
}
