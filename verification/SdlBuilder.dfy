/**
 Building a schema from its definitions
 (crates/codegen/src/schema/graphql_parser_conversion.rs): names get their ids in a first
 pass, rows are pushed in a second one.

 Every method that pushes rows is proved to push those that `SchemaTables` computes from the
 definition and the index, and to fail exactly when there are none; a failure stands for a
 panic of the original.
 */
module SdlBuilder {
  import opened Wrappers
  import Ast
  import opened TypeQualifiers
  import opened Schemas
  import opened SchemaTables
  import opened SchemaBuilders

  datatype FieldDef = FieldDef(name: string, fieldType: Ast.Type, directives: seq<Ast.Directive>)

  datatype TypeDef =
    | ScalarDef(name: string)
    | ObjectDef(name: string, interfaces: seq<string>, fields: seq<FieldDef>)
    | InterfaceDef(name: string, fields: seq<FieldDef>)
    | UnionDef(name: string, types: seq<string>)
    | EnumDef(name: string, values: seq<string>)
    | InputDef(name: string, inputs: seq<SourceInputField>)

  datatype SchemaItem = SchemaDefinition(roots: Roots) | TypeDefinition(def: TypeDef) | OtherDefinition

  // ----- What the definitions hold -----

  /** `find_deprecation`: the first such directive counts, and its first `reason` if that is a string. */
  function FindDeprecation(ds: seq<Ast.Directive>): Option<Option<string>> {
    if ds == [] then None
    else if ds[0].name == "deprecated" then Some(FindReason(ds[0].arguments))
    else FindDeprecation(ds[1..])
  }

  function FindReason(args: seq<Ast.Member>): Option<string> {
    if args == [] then None
    else if args[0].name == "reason" then if args[0].value.String? then Some(args[0].value.chars) else None
    else FindReason(args[1..])
  }

  function FieldSource(f: FieldDef): SourceField {
    SourceField(f.name, f.fieldType, FindDeprecation(f.directives))
  }

  function FieldSources(fs: seq<FieldDef>): seq<SourceField> {
    seq(|fs|, i requires 0 <= i < |fs| => FieldSource(fs[i]))
  }

  /** The definitions of one kind, in order. */
  function OfKind(items: seq<SchemaItem>, kind: TypeDef -> bool): (ds: seq<TypeDef>)
    ensures forall i | 0 <= i < |ds| :: kind(ds[i])
  {
    if items == [] then []
    else
      var last := items[|items| - 1];
      OfKind(items[..|items| - 1], kind) + if last.TypeDefinition? && kind(last.def) then [last.def] else []
  }

  function ScalarDefs(items: seq<SchemaItem>): (ds: seq<TypeDef>)
    ensures forall i | 0 <= i < |ds| :: ds[i].ScalarDef?
  { OfKind(items, (d: TypeDef) => d.ScalarDef?) }

  function ObjectDefs(items: seq<SchemaItem>): (ds: seq<TypeDef>)
    ensures forall i | 0 <= i < |ds| :: ds[i].ObjectDef?
  { OfKind(items, (d: TypeDef) => d.ObjectDef?) }

  function InterfaceDefs(items: seq<SchemaItem>): (ds: seq<TypeDef>)
    ensures forall i | 0 <= i < |ds| :: ds[i].InterfaceDef?
  { OfKind(items, (d: TypeDef) => d.InterfaceDef?) }

  function UnionDefs(items: seq<SchemaItem>): (ds: seq<TypeDef>)
    ensures forall i | 0 <= i < |ds| :: ds[i].UnionDef?
  { OfKind(items, (d: TypeDef) => d.UnionDef?) }

  function EnumDefs(items: seq<SchemaItem>): (ds: seq<TypeDef>)
    ensures forall i | 0 <= i < |ds| :: ds[i].EnumDef?
  { OfKind(items, (d: TypeDef) => d.EnumDef?) }

  function InputDefs(items: seq<SchemaItem>): (ds: seq<TypeDef>)
    ensures forall i | 0 <= i < |ds| :: ds[i].InputDef?
  { OfKind(items, (d: TypeDef) => d.InputDef?) }

  function NamesOf(ds: seq<TypeDef>): seq<string> {
    seq(|ds|, i requires 0 <= i < |ds| => ds[i].name)
  }

  function ObjectSource(d: TypeDef): SourceObject
    requires d.ObjectDef? || d.InterfaceDef?
  {
    SourceObject(d.name, if d.ObjectDef? then d.interfaces else [], FieldSources(d.fields))
  }

  function ContentsOf(items: seq<SchemaItem>): Contents {
    var es, us, fs := EnumDefs(items), UnionDefs(items), InterfaceDefs(items);
    var os, ns := ObjectDefs(items), InputDefs(items);
    Contents(
      NamesOf(ScalarDefs(items)),
      seq(|es|, i requires 0 <= i < |es| => StoredEnum(es[i].name, es[i].values)),
      seq(|us|, i requires 0 <= i < |us| => SourceUnion(us[i].name, us[i].types)),
      seq(|fs|, i requires 0 <= i < |fs| => ObjectSource(fs[i])),
      seq(|os|, i requires 0 <= i < |os| => ObjectSource(os[i])),
      seq(|ns|, i requires 0 <= i < |ns| => SourceInput(ns[i].name, ns[i].inputs)))
  }

  /** The first schema definition, or the usual names. */
  function RootsOf(items: seq<SchemaItem>): Roots {
    if items == [] then Roots(Some("Query"), Some("Mutation"), Some("Subscription"))
    else if items[0].SchemaDefinition? then items[0].roots
    else RootsOf(items[1..])
  }

  /** The schema built; None stands for a panic. */
  function FromSdl(items: seq<SchemaItem>): Option<Schema> {
    var c := ContentsOf(items);
    Built(SdlNames(c), c, RootsOf(items))
  }

  // ----- The code -----

  method PopulateNamesMap(s: SchemaBuilder, items: seq<SchemaItem>)
    requires s.names == Builtin()
    modifies s`names
    ensures s.names == SdlTypeNames(ContentsOf(items))
  {
    var c := ContentsOf(items);
    s.InsertNames(NamesOf(EnumDefs(items)), Enums);
    assert NamesOf(EnumDefs(items)) == EnumNames(c.enums);
    s.InsertNames(NamesOf(ObjectDefs(items)), Objects);
    assert NamesOf(ObjectDefs(items)) == ObjectNames(c.objects);
    s.InsertNames(NamesOf(InterfaceDefs(items)), Interfaces);
    assert NamesOf(InterfaceDefs(items)) == ObjectNames(c.interfaces);
    s.InsertNames(NamesOf(UnionDefs(items)), Unions);
    assert NamesOf(UnionDefs(items)) == UnionNames(c.unions);
    s.InsertNames(NamesOf(InputDefs(items)), Inputs);
    assert NamesOf(InputDefs(items)) == InputNames(c.inputs);
  }

  method ResolveFieldType(s: SchemaBuilder, t: Ast.Type) returns (r: Option<FieldType>)
    ensures r == FieldTypeOf(s.names, t)
  {
    var name, qualifiers := ResolveQualifiers(t);
    r := if name in s.names then Some(FieldType(s.names[name], qualifiers)) else None;
  }

  /** The loop over the fields of an object or interface. */
  method PushFields(s: SchemaBuilder, fs: seq<FieldDef>, parent: FieldParent) returns (ids: Option<seq<nat>>)
    modifies s`fields
    ensures var rows := FieldRows(s.names, parent, FieldSources(fs));
            && ids.Some? == rows.Some?
            && (rows.Some? ==>
                  s.fields == old(s.fields) + rows.value && ids.value == IdsFrom(|old(s.fields)|, |rows.value|))
  {
    hide Traverse;
    ghost var sources, row := FieldSources(fs), FieldRower(s.names, parent);
    TraverseNothing(row);
    var fieldIds: seq<nat> := [];
    ghost var rows: seq<StoredField> := [];
    for i := 0 to |fs|
      invariant Traverse(row, sources[..i]) == Some(rows)
      invariant s.fields == old(s.fields) + rows && fieldIds == IdsFrom(|old(s.fields)|, |rows|)
    {
      TraverseMore(row, sources, i, rows);
      var t := ResolveFieldType(s, fs[i].fieldType);
      if t.None? {
        return None;
      }
      var f := StoredField(fs[i].name, t.value, parent, FindDeprecation(fs[i].directives));
      assert row(sources[i]) == Some(f);
      var id := s.PushField(f);
      fieldIds := fieldIds + [id];
      rows := rows + [f];
    }
    assert sources[..|fs|] == sources;
    return Some(fieldIds);
  }

  method IngestObject(s: SchemaBuilder, d: TypeDef) returns (ok: bool)
    requires d.ObjectDef?
    modifies s`fields, s`objects
    ensures var row := ObjectRow(s.names, ObjectSource(d), true, |old(s.fields)|);
            && ok == row.Some?
            && (ok ==> s.objects == old(s.objects) + row.value.objects && s.fields == old(s.fields) + row.value.fields)
  {
    var parent := ParentOf(s.names, d.name, true);
    if parent.None? {
      return false;
    }
    var ids := PushFields(s, d.fields, parent.value);
    if ids.None? {
      return false;
    }
    var interfaces := Traverse(InterfaceFinder(s.names), d.interfaces);
    if interfaces.None? {
      return false;
    }
    s.objects := s.objects + [StoredObject(d.name, ids.value, interfaces.value)];
    return true;
  }

  method IngestInterface(s: SchemaBuilder, d: TypeDef) returns (ok: bool)
    requires d.InterfaceDef?
    modifies s`fields, s`interfaces
    ensures var row := ObjectRow(s.names, ObjectSource(d), false, |old(s.fields)|);
            && ok == row.Some?
            && (ok ==>
                  && s.interfaces == old(s.interfaces) + AsInterfaces(row.value.objects)
                  && s.fields == old(s.fields) + row.value.fields)
  {
    var parent := ParentOf(s.names, d.name, false);
    if parent.None? {
      return false;
    }
    var ids := PushFields(s, d.fields, parent.value);
    if ids.None? {
      return false;
    }
    assert Traverse(InterfaceFinder(s.names), []) == Some([]);
    s.interfaces := s.interfaces + [StoredInterface(d.name, ids.value)];
    return true;
  }

  method IngestUnion(s: SchemaBuilder, d: TypeDef) returns (ok: bool)
    requires d.UnionDef?
    modifies s`unions
    ensures var row := UnionRow(s.names, SourceUnion(d.name, d.types));
            && ok == row.Some?
            && (ok ==> s.unions == old(s.unions) + [row.value])
  {
    var variants := Traverse(Finder(s.names), d.types);
    if variants.None? {
      return false;
    }
    s.unions := s.unions + [StoredUnion(d.name, variants.value)];
    return true;
  }

  method IngestInput(s: SchemaBuilder, d: TypeDef) returns (ok: bool)
    requires d.InputDef?
    modifies s`inputs
    ensures var row := InputRow(s.names, SourceInput(d.name, d.inputs));
            && ok == row.Some?
            && (ok ==> s.inputs == old(s.inputs) + [row.value])
  {
    ghost var row := InputFieldRower(s.names);
    var fields: seq<InputField> := [];
    for i := 0 to |d.inputs|
      invariant s.inputs == old(s.inputs) && Traverse(row, d.inputs[..i]) == Some(fields)
    {
      assert d.inputs[..i + 1][..i] == d.inputs[..i];
      var t := ResolveFieldType(s, d.inputs[i].fieldType);
      if t.None? {
        TraverseFails(row, d.inputs, i);
        return false;
      }
      fields := fields + [InputField(d.inputs[i].name, t.value)];
    }
    assert d.inputs[..|d.inputs|] == d.inputs;
    var input := StoredInput(d.name, fields);
    assert InputRow(s.names, SourceInput(d.name, d.inputs)) == Some(input);
    s.inputs := s.inputs + [input];
    return true;
  }

  // ----- The second pass -----

  method IngestScalars(s: SchemaBuilder, items: seq<SchemaItem>)
    requires s.scalars == DEFAULT_SCALARS
    modifies s`scalars, s`names
    ensures s.scalars == DEFAULT_SCALARS + ContentsOf(items).scalars
    ensures s.names == WithNames(old(s.names), ContentsOf(items).scalars, Scalars)
  {
    var ds := ScalarDefs(items);
    ghost var ns := ContentsOf(items).scalars;
    for i := 0 to |ds|
      invariant s.scalars == DEFAULT_SCALARS + ns[..i] && s.names == WithNames(old(s.names), ns[..i], Scalars)
    {
      assert ns[..i + 1][..i] == ns[..i];
      s.IngestScalar(ds[i].name);
    }
    assert ns[..|ns|] == ns;
  }

  method IngestEnums(s: SchemaBuilder, items: seq<SchemaItem>)
    modifies s`enums
    ensures s.enums == old(s.enums) + ContentsOf(items).enums
  {
    var ds := EnumDefs(items);
    for i := 0 to |ds|
      invariant s.enums == old(s.enums) + ContentsOf(items).enums[..i]
    {
      s.enums := s.enums + [StoredEnum(ds[i].name, ds[i].values)];
    }
  }

  method IngestUnions(s: SchemaBuilder, items: seq<SchemaItem>) returns (ok: bool)
    requires s.unions == []
    modifies s`unions
    ensures var rows := Traverse(UnionRower(s.names), ContentsOf(items).unions);
            ok == rows.Some? && (ok ==> s.unions == rows.value)
  {
    var ds := UnionDefs(items);
    ghost var us, row := ContentsOf(items).unions, UnionRower(s.names);
    for i := 0 to |ds|
      invariant Traverse(row, us[..i]) == Some(s.unions)
    {
      assert us[..i + 1][..i] == us[..i];
      var one := IngestUnion(s, ds[i]);
      if !one {
        TraverseFails(row, us, i);
        return false;
      }
    }
    assert us[..|us|] == us;
    return true;
  }

  lemma InterfacesSources(items: seq<SchemaItem>)
    ensures var ds, os := InterfaceDefs(items), ContentsOf(items).interfaces;
            |os| == |ds| && forall i | 0 <= i < |ds| :: os[i] == ObjectSource(ds[i])
  {
  }

  lemma ObjectsSources(items: seq<SchemaItem>)
    ensures var ds, os := ObjectDefs(items), ContentsOf(items).objects;
            |os| == |ds| && forall i | 0 <= i < |ds| :: os[i] == ObjectSource(ds[i])
  {
  }

  method IngestInterfaces(s: SchemaBuilder, items: seq<SchemaItem>) returns (ok: bool)
    requires s.interfaces == []
    modifies s`fields, s`interfaces
    ensures var rows := ObjectRows(s.names, ContentsOf(items).interfaces, false, |old(s.fields)|);
            && ok == rows.Some?
            && (ok ==>
                  s.interfaces == AsInterfaces(rows.value.objects) && s.fields == old(s.fields) + rows.value.fields)
  {
    hide ObjectRow, ObjectRows, ContentsOf, AsInterfaces;
    var ds := InterfaceDefs(items);
    ghost var os, base, names := ContentsOf(items).interfaces, |s.fields|, s.names;
    ghost var rows := Rows([], []);
    NoRows(names, false, base);
    InterfacesSources(items);
    for i := 0 to |ds|
      invariant ObjectRows(names, os[..i], false, base) == Some(rows)
      invariant s.interfaces == AsInterfaces(rows.objects) && s.fields == old(s.fields) + rows.fields
    {
      OneRowMore(names, os, false, base, i, rows);
      ghost var row := ObjectRow(names, os[i], false, |s.fields|);
      var one := IngestInterface(s, ds[i]);
      if !one {
        return false;
      }
      AsInterfacesBoth(rows.objects, row.value.objects);
      rows := Rows(rows.objects + row.value.objects, rows.fields + row.value.fields);
    }
    assert os[..|os|] == os;
    return true;
  }

  method IngestObjects(s: SchemaBuilder, items: seq<SchemaItem>) returns (ok: bool)
    requires s.objects == []
    modifies s`fields, s`objects
    ensures var rows := ObjectRows(s.names, ContentsOf(items).objects, true, |old(s.fields)|);
            && ok == rows.Some?
            && (ok ==> s.objects == rows.value.objects && s.fields == old(s.fields) + rows.value.fields)
  {
    hide ObjectRow, ObjectRows, ContentsOf, AsInterfaces;
    var ds := ObjectDefs(items);
    ghost var os, base, names := ContentsOf(items).objects, |s.fields|, s.names;
    ghost var rows := Rows([], []);
    NoRows(names, true, base);
    ObjectsSources(items);
    for i := 0 to |ds|
      invariant ObjectRows(names, os[..i], true, base) == Some(rows)
      invariant s.objects == rows.objects && s.fields == old(s.fields) + rows.fields
    {
      OneRowMore(names, os, true, base, i, rows);
      ghost var row := ObjectRow(names, os[i], true, |s.fields|);
      var one := IngestObject(s, ds[i]);
      if !one {
        return false;
      }
      rows := Rows(rows.objects + row.value.objects, rows.fields + row.value.fields);
    }
    assert os[..|os|] == os;
    return true;
  }

  method IngestInputs(s: SchemaBuilder, items: seq<SchemaItem>) returns (ok: bool)
    requires s.inputs == []
    modifies s`inputs
    ensures var rows := Traverse(InputRower(s.names), ContentsOf(items).inputs);
            ok == rows.Some? && (ok ==> s.inputs == rows.value)
  {
    var ds := InputDefs(items);
    ghost var ns, row := ContentsOf(items).inputs, InputRower(s.names);
    for i := 0 to |ds|
      invariant Traverse(row, ns[..i]) == Some(s.inputs)
    {
      assert ns[..i + 1][..i] == ns[..i];
      var one := IngestInput(s, ds[i]);
      if !one {
        TraverseFails(row, ns, i);
        return false;
      }
    }
    assert ns[..|ns|] == ns;
    return true;
  }

  /** `build_schema`; None stands for a panic. */
  method BuildSchema(items: seq<SchemaItem>) returns (r: Option<SchemaBuilder>)
    ensures match FromSdl(items)
            case None => r.None?
            case Some(schema) => r.Some? && fresh(r.value) && r.value.Abs() == schema
  {
    hide ContentsOf, SdlTypeNames, RootsOf, RootId, ObjectRows, Traverse, AsInterfaces;
    var s := new SchemaBuilder();
    PopulateNamesMap(s, items);
    IngestScalars(s, items);
    IngestEnums(s, items);
    var ok := IngestUnions(s, items);
    if !ok {
      return None;
    }
    ok := IngestInterfaces(s, items);
    if !ok {
      return None;
    }
    ok := IngestObjects(s, items);
    if !ok {
      return None;
    }
    ok := IngestInputs(s, items);
    if !ok {
      return None;
    }
    s.SetRoots(RootsOf(items));
    return Some(s);
  }
}
