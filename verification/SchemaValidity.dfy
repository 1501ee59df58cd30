/** The tables and name indexes of both schema builders: sound, and the same exactly when kinds are apart. */
module SchemaValidity {
  import opened Wrappers
  import opened TypeQualifiers
  import opened Schemas
  import opened SchemaTables

  // ----- The index is in step -----

  /** The id is that of a definition with this name. */
  predicate Names(c: Contents, t: TypeId, n: string) {
    match t
    case ObjectId(i) => i < |c.objects| && c.objects[i].name == n
    case ScalarId(i) => i < |DEFAULT_SCALARS| + |c.scalars| && (DEFAULT_SCALARS + c.scalars)[i] == n
    case InterfaceId(i) => i < |c.interfaces| && c.interfaces[i].name == n
    case UnionId(i) => i < |c.unions| && c.unions[i].name == n
    case EnumId(i) => i < |c.enums| && c.enums[i].name == n
    case InputId(i) => i < |c.inputs| && c.inputs[i].name == n
  }

  predicate InStep(c: Contents, names: map<string, TypeId>) {
    forall n | n in names :: Names(c, names[n], n)
  }

  function NamesOfKind(c: Contents, kind: NameKind): seq<string> {
    match kind
    case Enums => EnumNames(c.enums)
    case Objects => ObjectNames(c.objects)
    case Interfaces => ObjectNames(c.interfaces)
    case Unions => UnionNames(c.unions)
    case Inputs => InputNames(c.inputs)
    case BuiltinScalars => DEFAULT_SCALARS
    case Scalars => c.scalars
  }

  /** Indexing the names of one more kind keeps the index in step. */
  lemma MoreInStep(c: Contents, names: map<string, TypeId>, kind: NameKind)
    requires InStep(c, names)
    ensures InStep(c, WithNames(names, NamesOfKind(c, kind), kind))
  {
    var ns := NamesOfKind(c, kind);
    forall n | n in WithNames(names, ns, kind) ensures Names(c, WithNames(names, ns, kind)[n], n) {
      WithNamesGives(names, ns, kind, n);
    }
  }

  lemma NamesAreInStep(c: Contents)
    ensures InStep(c, SdlNames(c)) && InStep(c, JsonNames(c))
  {
    hide InStep;
    assert InStep(c, map[]) by {
      NothingInStep(c);
    }
    MoreInStep(c, map[], BuiltinScalars);
    var n1 := WithNames(Builtin(), EnumNames(c.enums), Enums);
    var n2 := WithNames(n1, ObjectNames(c.objects), Objects);
    var n3 := WithNames(n2, ObjectNames(c.interfaces), Interfaces);
    var n4 := WithNames(n3, UnionNames(c.unions), Unions);
    MoreInStep(c, Builtin(), Enums);
    MoreInStep(c, n1, Objects);
    MoreInStep(c, n2, Interfaces);
    MoreInStep(c, n3, Unions);
    MoreInStep(c, n4, Inputs);
    MoreInStep(c, WithNames(n4, InputNames(c.inputs), Inputs), Scalars);
    var m1 := WithNames(Builtin(), UnionNames(c.unions), Unions);
    var m2 := WithNames(m1, ObjectNames(c.interfaces), Interfaces);
    var m3 := WithNames(m2, ObjectNames(c.objects), Objects);
    var m4 := WithNames(m3, InputNames(c.inputs), Inputs);
    MoreInStep(c, Builtin(), Unions);
    MoreInStep(c, m1, Interfaces);
    MoreInStep(c, m2, Objects);
    MoreInStep(c, m3, Inputs);
    MoreInStep(c, m4, Scalars);
    MoreInStep(c, WithNames(m4, c.scalars, Scalars), Enums);
  }

  lemma NothingInStep(c: Contents)
    ensures InStep(c, map[])
  {
  }

  // ----- Rows -----

  predicate Indexed(names: map<string, TypeId>, t: TypeId) {
    exists n | n in names :: names[n] == t
  }

  /** Rows for the given definitions: their names, fields numbered from `base` on, and indexed types. */
  predicate RowsFit(names: map<string, TypeId>, os: seq<SourceObject>, base: nat, rows: Rows) {
    && |rows.objects| == |os|
    && (forall i | 0 <= i < |os| :: rows.objects[i].name == os[i].name)
    && (forall i, k | 0 <= i < |os| && 0 <= k < |rows.objects[i].fields| ::
          base <= rows.objects[i].fields[k] < base + |rows.fields|)
    && (forall k | 0 <= k < |rows.fields| :: Indexed(names, rows.fields[k].fieldType.id))
  }

  lemma FieldRowsFit(names: map<string, TypeId>, parent: FieldParent, fs: seq<SourceField>)
    ensures var r := FieldRows(names, parent, fs);
            r.Some? ==> |r.value| == |fs| && forall k | 0 <= k < |fs| :: Indexed(names, r.value[k].fieldType.id)
  {
    var r := FieldRows(names, parent, fs);
    if r.Some? {
      forall k | 0 <= k < |fs| ensures Indexed(names, r.value[k].fieldType.id) {
        assert FieldRower(names, parent)(fs[k]) == Some(r.value[k]);
        assert names[NameOf(fs[k].fieldType)] == r.value[k].fieldType.id;
      }
    }
  }

  lemma {:induction false} ObjectRowsFit(names: map<string, TypeId>, os: seq<SourceObject>, isObject: bool, base: nat)
    ensures var r := ObjectRows(names, os, isObject, base);
            r.Some? ==> RowsFit(names, os, base, r.value)
  {
    hide Indexed, FieldRows;
    if os != [] && ObjectRows(names, os, isObject, base).Some? {
      ObjectRowsFit(names, os[..|os| - 1], isObject, base);
      var init := ObjectRows(names, os[..|os| - 1], isObject, base).value;
      var o := os[|os| - 1];
      FieldRowsFit(names, ParentOf(names, o.name, isObject).value, o.fields);
      RowsFitMore(names, os[..|os| - 1], base, init, o,
                  ObjectRow(names, o, isObject, base + |init.fields|).value);
      assert os == os[..|os| - 1] + [o];
    }
  }

  lemma RowsFitMore(names: map<string, TypeId>, os: seq<SourceObject>, base: nat, init: Rows, o: SourceObject,
                    last: Rows)
    requires RowsFit(names, os, base, init)
    requires |last.objects| == 1 && last.objects[0].name == o.name
    requires last.objects[0].fields == IdsFrom(base + |init.fields|, |last.fields|)
    requires forall k | 0 <= k < |last.fields| :: Indexed(names, last.fields[k].fieldType.id)
    ensures RowsFit(names, os + [o], base, Rows(init.objects + last.objects, init.fields + last.fields))
  {
    hide Indexed;
  }

  // ----- Validity -----

  /** Whatever is built with an index in step can be looked up. */
  lemma BuiltIsValid(c: Contents, names: map<string, TypeId>, roots: Roots)
    requires InStep(c, names) && Built(names, c, roots).Some?
    ensures Built(names, c, roots).value.Valid()
  {
    hide Built, Names, RootId;
    var s := Built(names, c, roots).value;
    BuiltTables(names, c, roots);
    forall n | n in names ensures s.Has(names[n]) && s.TypeName(names[n]) == n {
      assert Names(c, names[n], n);
      TablesNamed(names, c, roots, names[n], n);
    }
    forall t | Indexed(names, t) ensures s.Has(t) {
      var n :| n in names && names[n] == t;
    }
    RootsInRange(names, roots, s);
  }

  /** The rows of every table, from the definitions. */
  lemma BuiltTables(names: map<string, TypeId>, c: Contents, roots: Roots)
    requires Built(names, c, roots).Some?
    ensures var s := Built(names, c, roots).value;
            && s.names == names
            && s.queryType == RootId(names, roots.query) && s.mutationType == RootId(names, roots.mutation)
            && s.subscriptionType == RootId(names, roots.subscription)
            && TypesIndexed(names, s)
            && FieldIdsInRange(s)
  {
    hide Indexed, ObjectRows;
    var interfaces := ObjectRows(names, c.interfaces, false, 0).value;
    var objects := ObjectRows(names, c.objects, true, |interfaces.fields|).value;
    ObjectRowsFit(names, c.interfaces, false, 0);
    ObjectRowsFit(names, c.objects, true, |interfaces.fields|);
    UnionsFit(names, c);
    InputsFit(names, c);
  }

  /** Every type id in a table is one of the index. */
  predicate TypesIndexed(names: map<string, TypeId>, s: Schema) {
    && (forall i | 0 <= i < |s.fields| :: Indexed(names, s.fields[i].fieldType.id))
    && (forall i, k | 0 <= i < |s.unions| && 0 <= k < |s.unions[i].variants| :: Indexed(names, s.unions[i].variants[k]))
    && (forall i, k | 0 <= i < |s.inputs| && 0 <= k < |s.inputs[i].fields| ::
          Indexed(names, s.inputs[i].fields[k].fieldType.id))
  }

  predicate FieldIdsInRange(s: Schema) {
    && (forall i, k | 0 <= i < |s.objects| && 0 <= k < |s.objects[i].fields| :: s.objects[i].fields[k] < |s.fields|)
    && (forall i, k | 0 <= i < |s.interfaces| && 0 <= k < |s.interfaces[i].fields| ::
          s.interfaces[i].fields[k] < |s.fields|)
  }

  lemma RootsInRange(names: map<string, TypeId>, roots: Roots, s: Schema)
    requires forall t | Indexed(names, t) :: s.Has(t)
    ensures RootId(names, roots.query).Some? ==> RootId(names, roots.query).value < |s.objects|
    ensures RootId(names, roots.mutation).Some? ==> RootId(names, roots.mutation).value < |s.objects|
    ensures RootId(names, roots.subscription).Some? ==> RootId(names, roots.subscription).value < |s.objects|
  {
    forall r: Option<string> | RootId(names, r).Some? ensures RootId(names, r).value < |s.objects| {
      assert Indexed(names, names[r.value]);
    }
  }

  lemma TablesNamed(names: map<string, TypeId>, c: Contents, roots: Roots, t: TypeId, n: string)
    requires Built(names, c, roots).Some? && Names(c, t, n)
    ensures var s := Built(names, c, roots).value;
            s.Has(t) && s.TypeName(t) == n
  {
    var interfaces := ObjectRows(names, c.interfaces, false, 0).value;
    ObjectRowsFit(names, c.interfaces, false, 0);
    ObjectRowsFit(names, c.objects, true, |interfaces.fields|);
    match t
    case UnionId(i) => assert UnionRower(names)(c.unions[i]) == Some(Traverse(UnionRower(names), c.unions).value[i]);
    case InputId(i) => assert InputRower(names)(c.inputs[i]) == Some(Traverse(InputRower(names), c.inputs).value[i]);
    case _ =>
  }

  lemma UnionsFit(names: map<string, TypeId>, c: Contents)
    requires Traverse(UnionRower(names), c.unions).Some?
    ensures var us := Traverse(UnionRower(names), c.unions).value;
            forall i, k | 0 <= i < |us| && 0 <= k < |us[i].variants| :: Indexed(names, us[i].variants[k])
  {
    var us := Traverse(UnionRower(names), c.unions).value;
    forall i, k | 0 <= i < |us| && 0 <= k < |us[i].variants| ensures Indexed(names, us[i].variants[k]) {
      assert UnionRower(names)(c.unions[i]) == Some(us[i]);
      assert Finder(names)(c.unions[i].members[k]) == Some(us[i].variants[k]);
      assert c.unions[i].members[k] in names;
    }
  }

  lemma InputsFit(names: map<string, TypeId>, c: Contents)
    requires Traverse(InputRower(names), c.inputs).Some?
    ensures var rows := Traverse(InputRower(names), c.inputs).value;
            forall i, k | 0 <= i < |rows| && 0 <= k < |rows[i].fields| :: Indexed(names, rows[i].fields[k].fieldType.id)
  {
    var rows := Traverse(InputRower(names), c.inputs).value;
    forall i, k | 0 <= i < |rows| && 0 <= k < |rows[i].fields| ensures Indexed(names, rows[i].fields[k].fieldType.id) {
      assert InputRower(names)(c.inputs[i]) == Some(rows[i]);
      assert InputFieldRower(names)(c.inputs[i].fields[k]) == Some(rows[i].fields[k]);
      assert names[NameOf(c.inputs[i].fields[k].fieldType)] == rows[i].fields[k].fieldType.id;
    }
  }

  // ----- Both indexes -----

  /** The kind whose names come last into the index, of those that have the name. */
  function SdlKind(c: Contents, n: string): Option<NameKind> {
    if n in c.scalars then Some(Scalars)
    else if n in InputNames(c.inputs) then Some(Inputs)
    else if n in UnionNames(c.unions) then Some(Unions)
    else if n in ObjectNames(c.interfaces) then Some(Interfaces)
    else if n in ObjectNames(c.objects) then Some(Objects)
    else if n in EnumNames(c.enums) then Some(Enums)
    else if n in DEFAULT_SCALARS then Some(BuiltinScalars)
    else None
  }

  function JsonKind(c: Contents, n: string): Option<NameKind> {
    if n in EnumNames(c.enums) then Some(Enums)
    else if n in c.scalars then Some(Scalars)
    else if n in InputNames(c.inputs) then Some(Inputs)
    else if n in ObjectNames(c.objects) then Some(Objects)
    else if n in ObjectNames(c.interfaces) then Some(Interfaces)
    else if n in UnionNames(c.unions) then Some(Unions)
    else if n in DEFAULT_SCALARS then Some(BuiltinScalars)
    else None
  }

  lemma SdlNamesGive(c: Contents, n: string)
    ensures n in SdlNames(c) <==> SdlKind(c, n).Some?
    ensures SdlKind(c, n).Some? ==> SdlNames(c)[n] == IdIn(NamesOfKind(c, SdlKind(c, n).value), SdlKind(c, n).value, n)
  {
    hide WithNames, IdIn, EnumNames, ObjectNames, UnionNames, InputNames;
    var n0 := Builtin();
    var n1 := WithNames(n0, EnumNames(c.enums), Enums);
    var n2 := WithNames(n1, ObjectNames(c.objects), Objects);
    var n3 := WithNames(n2, ObjectNames(c.interfaces), Interfaces);
    var n4 := WithNames(n3, UnionNames(c.unions), Unions);
    var n5 := WithNames(n4, InputNames(c.inputs), Inputs);
    WithNamesGives(map[], DEFAULT_SCALARS, BuiltinScalars, n);
    WithNamesGives(n0, EnumNames(c.enums), Enums, n);
    WithNamesGives(n1, ObjectNames(c.objects), Objects, n);
    WithNamesGives(n2, ObjectNames(c.interfaces), Interfaces, n);
    WithNamesGives(n3, UnionNames(c.unions), Unions, n);
    WithNamesGives(n4, InputNames(c.inputs), Inputs, n);
    WithNamesGives(n5, c.scalars, Scalars, n);
  }

  lemma JsonNamesGive(c: Contents, n: string)
    ensures n in JsonNames(c) <==> JsonKind(c, n).Some?
    ensures JsonKind(c, n).Some? ==>
            JsonNames(c)[n] == IdIn(NamesOfKind(c, JsonKind(c, n).value), JsonKind(c, n).value, n)
  {
    hide WithNames, IdIn, EnumNames, ObjectNames, UnionNames, InputNames;
    var n0 := Builtin();
    var n1 := WithNames(n0, UnionNames(c.unions), Unions);
    var n2 := WithNames(n1, ObjectNames(c.interfaces), Interfaces);
    var n3 := WithNames(n2, ObjectNames(c.objects), Objects);
    var n4 := WithNames(n3, InputNames(c.inputs), Inputs);
    var n5 := WithNames(n4, c.scalars, Scalars);
    WithNamesGives(map[], DEFAULT_SCALARS, BuiltinScalars, n);
    WithNamesGives(n0, UnionNames(c.unions), Unions, n);
    WithNamesGives(n1, ObjectNames(c.interfaces), Interfaces, n);
    WithNamesGives(n2, ObjectNames(c.objects), Objects, n);
    WithNamesGives(n3, InputNames(c.inputs), Inputs, n);
    WithNamesGives(n4, c.scalars, Scalars, n);
    WithNamesGives(n5, EnumNames(c.enums), Enums, n);
  }

  /**
   An enum has no name of another kind, and a union, interface and object share no name that
   is not also a scalar's or an input type's.
   */
  ghost predicate KindsApart(c: Contents) {
    forall n: string :: ApartAt(c, n)
  }

  predicate ApartAt(c: Contents, n: string) {
    var e, u := n in EnumNames(c.enums), n in UnionNames(c.unions);
    var i, o := n in ObjectNames(c.interfaces), n in ObjectNames(c.objects);
    var late := n in c.scalars || n in InputNames(c.inputs);
    && (e ==> !late && !u && !i && !o)
    && (!late ==> !(u && i) && !(u && o) && !(i && o))
  }

  /** The builders index the same names with the same ids exactly when the kinds are apart. */
  lemma SameNamesIffKindsApart(c: Contents)
    ensures SdlNames(c) == JsonNames(c) <==> KindsApart(c)
  {
    forall n
      ensures ApartAt(c, n) <==>
                && (n in SdlNames(c) <==> n in JsonNames(c))
                && (n in SdlNames(c) ==> SdlNames(c)[n] == JsonNames(c)[n])
    {
      SameNameIffApart(c, n);
    }
    hide SdlNames, JsonNames, ApartAt;
  }

  lemma SameNameIffApart(c: Contents, n: string)
    ensures ApartAt(c, n) <==>
              && (n in SdlNames(c) <==> n in JsonNames(c))
              && (n in SdlNames(c) ==> SdlNames(c)[n] == JsonNames(c)[n])
  {
    hide SdlNames, JsonNames, EnumNames, ObjectNames, UnionNames, InputNames;
    SdlNamesGive(c, n);
    JsonNamesGive(c, n);
  }
}
