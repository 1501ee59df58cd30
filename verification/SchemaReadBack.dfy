/**
 Reading a built schema back: its tables hold what the definitions, or the introspection
 data, say.  Nothing here is stated through the functions that fill the tables.
 */
module SchemaReadBack {
  import opened Wrappers
  import Ast
  import opened TypeQualifiers
  import opened Schemas
  import opened SchemaTables
  import opened SchemaValidity
  import S = SdlBuilder
  import I = Introspection

  // ----- What a table entry says -----

  /** A type with its name and qualifiers, as it was written. */
  predicate TypeReads(s: Schema, f: FieldType, t: Ast.Type) {
    s.Has(f.id) && TypeOf(s.TypeName(f.id), f.qualifiers) == t
  }

  predicate FieldReads(s: Schema, f: StoredField, parent: string, src: SourceField) {
    && f.name == src.name && TypeReads(s, f.fieldType, src.fieldType) && f.deprecation == src.deprecation
    && match f.parent
       case OfObject(i) => i < |s.objects| && s.objects[i].name == parent
       case OfInterface(i) => i < |s.interfaces| && s.interfaces[i].name == parent
  }

  /** The listed fields are those of the definition, in order. */
  predicate FieldsRead(s: Schema, ids: seq<nat>, ofObject: bool, src: SourceObject) {
    && |ids| == |src.fields|
    && forall k | 0 <= k < |ids| ::
         && ids[k] < |s.fields|
         && FieldReads(s, s.fields[ids[k]], src.name, src.fields[k])
         && s.fields[ids[k]].parent.OfObject? == ofObject
  }

  predicate ObjectReads(s: Schema, o: StoredObject, src: SourceObject) {
    && o.name == src.name && FieldsRead(s, o.fields, true, src)
    && |o.implementsInterfaces| == |src.interfaces|
    && forall k | 0 <= k < |src.interfaces| ::
         && o.implementsInterfaces[k] < |s.interfaces|
         && s.interfaces[o.implementsInterfaces[k]].name == src.interfaces[k]
  }

  predicate InterfaceReads(s: Schema, o: StoredInterface, src: SourceObject) {
    o.name == src.name && FieldsRead(s, o.fields, false, src)
  }

  predicate UnionReads(s: Schema, u: StoredUnion, src: SourceUnion) {
    && u.name == src.name && |u.variants| == |src.members|
    && forall k | 0 <= k < |src.members| :: s.Has(u.variants[k]) && s.TypeName(u.variants[k]) == src.members[k]
  }

  predicate InputReads(s: Schema, i: StoredInput, src: SourceInput) {
    && i.name == src.name && |i.fields| == |src.fields|
    && forall k | 0 <= k < |src.fields| ::
         i.fields[k].name == src.fields[k].name && TypeReads(s, i.fields[k].fieldType, src.fields[k].fieldType)
  }

  /** The root is the object that the name stands for, if it stands for one. */
  predicate RootReads(s: Schema, root: Option<nat>, name: Option<string>) {
    match root
    case Some(i) => i < |s.objects| && name == Some(s.objects[i].name) && s.FindType(name.value) == Some(ObjectId(i))
    case None => name.Some? ==> s.FindType(name.value).None? || !s.FindType(name.value).value.ObjectId?
  }

  function FieldCount(os: seq<SourceObject>): nat {
    if os == [] then 0 else FieldCount(os[..|os| - 1]) + |os[|os| - 1].fields|
  }

  /**
   All tables hold the definitions of their kind, in order, and no more; the built-in scalars
   come first.
   */
  predicate TablesRead(s: Schema, c: Contents, roots: Roots) {
    && |s.objects| == |c.objects| && (forall i | 0 <= i < |c.objects| :: ObjectReads(s, s.objects[i], c.objects[i]))
    && |s.interfaces| == |c.interfaces|
    && (forall i | 0 <= i < |c.interfaces| :: InterfaceReads(s, s.interfaces[i], c.interfaces[i]))
    && |s.unions| == |c.unions| && (forall i | 0 <= i < |c.unions| :: UnionReads(s, s.unions[i], c.unions[i]))
    && |s.inputs| == |c.inputs| && (forall i | 0 <= i < |c.inputs| :: InputReads(s, s.inputs[i], c.inputs[i]))
    && |s.fields| == FieldCount(c.interfaces) + FieldCount(c.objects)
    && s.enums == c.enums && s.scalars == ["ID", "String", "Int", "Float", "Boolean"] + c.scalars
    && RootReads(s, s.queryType, roots.query) && RootReads(s, s.mutationType, roots.mutation)
    && RootReads(s, s.subscriptionType, roots.subscription)
  }

  // ----- Rows -----

  /** The ids of the index are those of tables with these names. */
  predicate Named(s: Schema) {
    forall n | n in s.names :: s.Has(s.names[n]) && s.TypeName(s.names[n]) == n
  }

  lemma TypeIsRead(s: Schema, t: Ast.Type, r: FieldType)
    requires Named(s) && FieldTypeOf(s.names, t) == Some(r)
    ensures TypeReads(s, r, t)
  {
    QualifiersRebuildType(t);
  }

  lemma RowOfField(s: Schema, parent: FieldParent, name: string, isObject: bool, f: SourceField, row: StoredField)
    requires Named(s) && ParentOf(s.names, name, isObject) == Some(parent)
    requires FieldRow(s.names, parent, f) == Some(row)
    ensures FieldReads(s, row, name, f) && row.parent.OfObject? == isObject
  {
    TypeIsRead(s, f.fieldType, row.fieldType);
    hide TypeReads;
  }

  /** The rows are in the table of fields from `base` on. */
  predicate Placed(s: Schema, rows: seq<StoredField>, base: nat) {
    base + |rows| <= |s.fields| && forall k | 0 <= k < |rows| :: s.fields[base + k] == rows[k]
  }

  lemma RowOfObject(s: Schema, o: SourceObject, isObject: bool, base: nat, row: Rows)
    requires Named(s) && ObjectRow(s.names, o, isObject, base) == Some(row) && Placed(s, row.fields, base)
    ensures |row.objects| == 1 && row.objects[0].name == o.name && |row.fields| == |o.fields|
    ensures FieldsRead(s, row.objects[0].fields, isObject, o)
    ensures isObject ==> ObjectReads(s, row.objects[0], o)
  {
    var parent := ParentOf(s.names, o.name, isObject).value;
    var ids := row.objects[0].fields;
    forall k | 0 <= k < |ids|
      ensures FieldReads(s, s.fields[ids[k]], o.name, o.fields[k]) && s.fields[ids[k]].parent.OfObject? == isObject
    {
      assert FieldRower(s.names, parent)(o.fields[k]) == Some(row.fields[k]);
      RowOfField(s, parent, o.name, isObject, o.fields[k], row.fields[k]);
    }
    forall k | 0 <= k < |o.interfaces|
      ensures var i := row.objects[0].implementsInterfaces[k];
              i < |s.interfaces| && s.interfaces[i].name == o.interfaces[k]
    {
      assert InterfaceFinder(s.names)(o.interfaces[k]) == Some(row.objects[0].implementsInterfaces[k]);
    }
  }

  lemma {:induction false} RowsOfObjects(s: Schema, os: seq<SourceObject>, isObject: bool, base: nat, rows: Rows)
    requires Named(s) && ObjectRows(s.names, os, isObject, base) == Some(rows) && Placed(s, rows.fields, base)
    ensures |rows.objects| == |os| && |rows.fields| == FieldCount(os)
    ensures forall i | 0 <= i < |os| ::
              && rows.objects[i].name == os[i].name && FieldsRead(s, rows.objects[i].fields, isObject, os[i])
              && (isObject ==> ObjectReads(s, rows.objects[i], os[i]))
  {
    hide Named, ObjectRow, FieldsRead, ObjectReads;
    if os != [] {
      var init := ObjectRows(s.names, os[..|os| - 1], isObject, base).value;
      var last := ObjectRow(s.names, os[|os| - 1], isObject, base + |init.fields|).value;
      assert forall k | 0 <= k < |init.fields| :: rows.fields[k] == init.fields[k];
      assert forall k | 0 <= k < |last.fields| :: rows.fields[|init.fields| + k] == last.fields[k];
      RowsOfObjects(s, os[..|os| - 1], isObject, base, init);
      RowOfObject(s, os[|os| - 1], isObject, base + |init.fields|, last);
    }
  }

  lemma RowOfUnion(s: Schema, u: SourceUnion, row: StoredUnion)
    requires Named(s) && UnionRow(s.names, u) == Some(row)
    ensures UnionReads(s, row, u)
  {
    forall k | 0 <= k < |u.members| ensures s.Has(row.variants[k]) && s.TypeName(row.variants[k]) == u.members[k] {
      assert Finder(s.names)(u.members[k]) == Some(row.variants[k]);
    }
  }

  lemma RowOfInput(s: Schema, i: SourceInput, row: StoredInput)
    requires Named(s) && InputRow(s.names, i) == Some(row)
    ensures InputReads(s, row, i)
  {
    forall k | 0 <= k < |i.fields|
      ensures row.fields[k].name == i.fields[k].name && TypeReads(s, row.fields[k].fieldType, i.fields[k].fieldType)
    {
      assert InputFieldRower(s.names)(i.fields[k]) == Some(row.fields[k]);
      TypeIsRead(s, i.fields[k].fieldType, row.fields[k].fieldType);
    }
  }

  lemma UnionsRead(s: Schema, us: seq<SourceUnion>)
    requires Named(s) && Traverse(UnionRower(s.names), us) == Some(s.unions)
    ensures |s.unions| == |us| && forall i | 0 <= i < |us| :: UnionReads(s, s.unions[i], us[i])
  {
    hide Named, UnionReads, UnionRow;
    forall i | 0 <= i < |us| ensures UnionReads(s, s.unions[i], us[i]) {
      assert UnionRower(s.names)(us[i]) == Some(s.unions[i]);
      RowOfUnion(s, us[i], s.unions[i]);
    }
  }

  lemma InputsRead(s: Schema, ns: seq<SourceInput>)
    requires Named(s) && Traverse(InputRower(s.names), ns) == Some(s.inputs)
    ensures |s.inputs| == |ns| && forall i | 0 <= i < |ns| :: InputReads(s, s.inputs[i], ns[i])
  {
    hide Named, InputReads, InputRow;
    forall i | 0 <= i < |ns| ensures InputReads(s, s.inputs[i], ns[i]) {
      assert InputRower(s.names)(ns[i]) == Some(s.inputs[i]);
      RowOfInput(s, ns[i], s.inputs[i]);
    }
  }

  /** Whatever is built with an index in step holds what the definitions say. */
  lemma BuiltReadsBack(names: map<string, TypeId>, c: Contents, roots: Roots)
    requires InStep(c, names) && Built(names, c, roots).Some?
    ensures TablesRead(Built(names, c, roots).value, c, roots)
  {
    var s := Built(names, c, roots).value;
    BuiltIsValid(c, names, roots);
    assert Named(s) && s.names == names;
    var interfaces := ObjectRows(names, c.interfaces, false, 0).value;
    var objects := ObjectRows(names, c.objects, true, |interfaces.fields|).value;
    hide Named, ObjectRows, InStep, Schema.Valid, ObjectReads, FieldsRead, UnionReads, InputReads;
    hide RootReads, Traverse, UnionRower, InputRower;
    RowsOfObjects(s, c.interfaces, false, 0, interfaces);
    RowsOfObjects(s, c.objects, true, |interfaces.fields|, objects);
    UnionsRead(s, c.unions);
    InputsRead(s, c.inputs);
    RootsRead(s, roots.query);
    RootsRead(s, roots.mutation);
    RootsRead(s, roots.subscription);
  }

  lemma RootsRead(s: Schema, name: Option<string>)
    requires Named(s)
    ensures RootReads(s, RootId(s.names, name), name)
  {
  }

  // ----- When there are tables -----

  predicate Resolvable(names: map<string, TypeId>, t: Ast.Type) {
    NameOf(t) in names
  }

  predicate FieldsResolve(names: map<string, TypeId>, fs: seq<SourceField>) {
    forall k | 0 <= k < |fs| :: Resolvable(names, fs[k].fieldType)
  }

  /** The object stands under its own name, its interfaces are interfaces, and its fields have known types. */
  predicate ObjectResolves(names: map<string, TypeId>, o: SourceObject) {
    && o.name in names && names[o.name].ObjectId? && FieldsResolve(names, o.fields)
    && forall k | 0 <= k < |o.interfaces| :: o.interfaces[k] in names && names[o.interfaces[k]].InterfaceId?
  }

  predicate InterfaceResolves(names: map<string, TypeId>, o: SourceObject) {
    && o.name in names && names[o.name].InterfaceId? && FieldsResolve(names, o.fields)
    && forall k | 0 <= k < |o.interfaces| :: o.interfaces[k] in names && names[o.interfaces[k]].InterfaceId?
  }

  predicate UnionResolves(names: map<string, TypeId>, u: SourceUnion) {
    forall k | 0 <= k < |u.members| :: u.members[k] in names
  }

  predicate InputResolves(names: map<string, TypeId>, i: SourceInput) {
    forall k | 0 <= k < |i.fields| :: Resolvable(names, i.fields[k].fieldType)
  }

  /** Every name that the definitions mention can be found, with the kind it needs. */
  predicate AllResolve(names: map<string, TypeId>, c: Contents) {
    && (forall i | 0 <= i < |c.objects| :: ObjectResolves(names, c.objects[i]))
    && (forall i | 0 <= i < |c.interfaces| :: InterfaceResolves(names, c.interfaces[i]))
    && (forall i | 0 <= i < |c.unions| :: UnionResolves(names, c.unions[i]))
    && (forall i | 0 <= i < |c.inputs| :: InputResolves(names, c.inputs[i]))
  }

  lemma TraverseExactlyWhen<T, R>(f: T -> Option<R>, ts: seq<T>)
    ensures Traverse(f, ts).Some? <==> forall i | 0 <= i < |ts| :: f(ts[i]).Some?
  {
    if i :| 0 <= i < |ts| && f(ts[i]).None? {
      TraverseFails(f, ts, i);
    } else if ts != [] {
      TraverseExactlyWhen(f, ts[..|ts| - 1]);
    }
  }

  lemma ObjectRowExactlyWhen(names: map<string, TypeId>, o: SourceObject, isObject: bool, base: nat)
    ensures ObjectRow(names, o, isObject, base).Some? <==>
            if isObject then ObjectResolves(names, o) else InterfaceResolves(names, o)
  {
    var parent := ParentOf(names, o.name, isObject);
    if parent.Some? {
      TraverseExactlyWhen(FieldRower(names, parent.value), o.fields);
      TraverseExactlyWhen(InterfaceFinder(names), o.interfaces);
      forall k | 0 <= k < |o.fields|
        ensures FieldRower(names, parent.value)(o.fields[k]).Some? <==> Resolvable(names, o.fields[k].fieldType)
      {
      }
    }
  }

  lemma {:induction false} ObjectRowsExactlyWhen(names: map<string, TypeId>, os: seq<SourceObject>, isObject: bool,
                                                base: nat)
    ensures ObjectRows(names, os, isObject, base).Some? <==>
            forall i | 0 <= i < |os| ::
              if isObject then ObjectResolves(names, os[i]) else InterfaceResolves(names, os[i])
  {
    hide ObjectRow, ObjectResolves, InterfaceResolves;
    if os != [] {
      var init := ObjectRows(names, os[..|os| - 1], isObject, base);
      ObjectRowsExactlyWhen(names, os[..|os| - 1], isObject, base);
      if init.Some? {
        ObjectRowExactlyWhen(names, os[|os| - 1], isObject, base + |init.value.fields|);
      }
    }
  }

  lemma UnionsExactlyWhen(names: map<string, TypeId>, us: seq<SourceUnion>)
    ensures Traverse(UnionRower(names), us).Some? <==> forall i | 0 <= i < |us| :: UnionResolves(names, us[i])
  {
    TraverseExactlyWhen(UnionRower(names), us);
    forall i | 0 <= i < |us| ensures UnionRower(names)(us[i]).Some? <==> UnionResolves(names, us[i]) {
      TraverseExactlyWhen(Finder(names), us[i].members);
    }
  }

  lemma InputsExactlyWhen(names: map<string, TypeId>, ns: seq<SourceInput>)
    ensures Traverse(InputRower(names), ns).Some? <==> forall i | 0 <= i < |ns| :: InputResolves(names, ns[i])
  {
    TraverseExactlyWhen(InputRower(names), ns);
    forall i | 0 <= i < |ns| ensures InputRower(names)(ns[i]).Some? <==> InputResolves(names, ns[i]) {
      TraverseExactlyWhen(InputFieldRower(names), ns[i].fields);
    }
  }

  /** There are tables exactly when every name can be found, with the kind it needs. */
  lemma BuiltExactlyWhen(names: map<string, TypeId>, c: Contents, roots: Roots)
    ensures Built(names, c, roots).Some? <==> AllResolve(names, c)
  {
    hide ObjectRows, ObjectResolves, InterfaceResolves, UnionResolves, InputResolves, Traverse;
    var interfaces := ObjectRows(names, c.interfaces, false, 0);
    ObjectRowsExactlyWhen(names, c.interfaces, false, 0);
    ObjectRowsExactlyWhen(names, c.objects, true, if interfaces.Some? then |interfaces.value.fields| else 0);
    UnionsExactlyWhen(names, c.unions);
    InputsExactlyWhen(names, c.inputs);
  }

  // ----- Definitions in the schema language -----

  /** Argument number `k` is the first `reason`; it gives the reason if it is a string. */
  predicate ReasonAt(r: Option<string>, args: seq<Ast.Member>, k: nat) {
    && k < |args| && args[k].name == "reason" && (forall i | 0 <= i < k :: args[i].name != "reason")
    && r == if args[k].value.String? then Some(args[k].value.chars) else None
  }

  predicate ReasonReads(r: Option<string>, args: seq<Ast.Member>) {
    || ((forall k | 0 <= k < |args| :: args[k].name != "reason") && r == None)
    || exists k | 0 <= k < |args| :: ReasonAt(r, args, k)
  }

  /** Directive number `k` is the first `deprecated`. */
  predicate DeprecatedAt(r: Option<Option<string>>, ds: seq<Ast.Directive>, k: nat) {
    && k < |ds| && ds[k].name == "deprecated" && (forall i | 0 <= i < k :: ds[i].name != "deprecated")
    && r.Some? && ReasonReads(r.value, ds[k].arguments)
  }

  predicate DeprecationReads(r: Option<Option<string>>, ds: seq<Ast.Directive>) {
    || ((forall k | 0 <= k < |ds| :: ds[k].name != "deprecated") && r == None)
    || exists k | 0 <= k < |ds| :: DeprecatedAt(r, ds, k)
  }

  predicate FieldDefReads(f: SourceField, d: S.FieldDef) {
    f.name == d.name && f.fieldType == d.fieldType && DeprecationReads(f.deprecation, d.directives)
  }

  predicate FieldDefsRead(fs: seq<SourceField>, ds: seq<S.FieldDef>) {
    |fs| == |ds| && forall k | 0 <= k < |fs| :: FieldDefReads(fs[k], ds[k])
  }

  /** The definition is number `i` of its kind in the contents. */
  predicate DefReads(c: Contents, i: nat, d: S.TypeDef) {
    match d
    case ScalarDef(name) => i < |c.scalars| && c.scalars[i] == name
    case ObjectDef(name, interfaces, fields) =>
      && i < |c.objects| && c.objects[i].name == name && c.objects[i].interfaces == interfaces
      && FieldDefsRead(c.objects[i].fields, fields)
    case InterfaceDef(name, fields) =>
      && i < |c.interfaces| && c.interfaces[i].name == name && c.interfaces[i].interfaces == []
      && FieldDefsRead(c.interfaces[i].fields, fields)
    case UnionDef(name, types) => i < |c.unions| && c.unions[i] == SourceUnion(name, types)
    case EnumDef(name, values) => i < |c.enums| && c.enums[i] == StoredEnum(name, values)
    case InputDef(name, inputs) => i < |c.inputs| && c.inputs[i] == SourceInput(name, inputs)
  }

  predicate SameKind(d: S.TypeDef, e: S.TypeDef) {
    match d
    case ScalarDef(_) => e.ScalarDef?
    case ObjectDef(_, _, _) => e.ObjectDef?
    case InterfaceDef(_, _) => e.InterfaceDef?
    case UnionDef(_, _) => e.UnionDef?
    case EnumDef(_, _) => e.EnumDef?
    case InputDef(_, _) => e.InputDef?
  }

  /** How many of the definitions are of the kind of `d`. */
  function CountLike(items: seq<S.SchemaItem>, d: S.TypeDef): nat {
    if items == [] then 0
    else
      var last := items[|items| - 1];
      CountLike(items[..|items| - 1], d) + if last.TypeDefinition? && SameKind(d, last.def) then 1 else 0
  }

  /** Every type definition is among the contents, where its place among those of its kind says, and nothing else is. */
  predicate SdlReads(items: seq<S.SchemaItem>, c: Contents) {
    && (forall p | 0 <= p < |items| && items[p].TypeDefinition? ::
          DefReads(c, CountLike(items[..p], items[p].def), items[p].def))
    && |c.scalars| == CountLike(items, S.ScalarDef("")) && |c.objects| == CountLike(items, S.ObjectDef("", [], []))
    && |c.interfaces| == CountLike(items, S.InterfaceDef("", [])) && |c.unions| == CountLike(items, S.UnionDef("", []))
    && |c.enums| == CountLike(items, S.EnumDef("", [])) && |c.inputs| == CountLike(items, S.InputDef("", []))
  }

  /** Item number `p` is the first schema definition, and gives the roots. */
  predicate RootsAt(items: seq<S.SchemaItem>, roots: Roots, p: nat) {
    && p < |items| && items[p].SchemaDefinition? && (forall q | 0 <= q < p :: !items[q].SchemaDefinition?)
    && roots == items[p].roots
  }

  /** The roots are those of the first schema definition, or have the usual names if there is none. */
  predicate SdlRootsRead(items: seq<S.SchemaItem>, roots: Roots) {
    || ((forall p | 0 <= p < |items| :: !items[p].SchemaDefinition?)
        && roots == Roots(Some("Query"), Some("Mutation"), Some("Subscription")))
    || exists p | 0 <= p < |items| :: RootsAt(items, roots, p)
  }

  lemma {:induction false} ReasonIsRead(args: seq<Ast.Member>)
    ensures ReasonReads(S.FindReason(args), args)
  {
    var r := S.FindReason(args);
    if args != [] && args[0].name == "reason" {
      assert ReasonAt(r, args, 0);
    } else if args != [] {
      ReasonIsRead(args[1..]);
      assert forall i | 0 < i < |args| :: args[i] == args[1..][i - 1];
      if k :| 0 <= k < |args| - 1 && ReasonAt(r, args[1..], k) {
        assert ReasonAt(r, args, k + 1);
      }
    }
  }

  lemma {:induction false} DeprecationIsRead(ds: seq<Ast.Directive>)
    ensures DeprecationReads(S.FindDeprecation(ds), ds)
  {
    hide ReasonReads, S.FindReason;
    var r := S.FindDeprecation(ds);
    if ds != [] && ds[0].name == "deprecated" {
      ReasonIsRead(ds[0].arguments);
      assert DeprecatedAt(r, ds, 0);
    } else if ds != [] {
      DeprecationIsRead(ds[1..]);
      assert forall i | 0 < i < |ds| :: ds[i] == ds[1..][i - 1];
      if k :| 0 <= k < |ds| - 1 && DeprecatedAt(r, ds[1..], k) {
        assert DeprecatedAt(r, ds, k + 1);
      }
    }
  }

  lemma FieldDefsAreRead(fs: seq<S.FieldDef>)
    ensures FieldDefsRead(S.FieldSources(fs), fs)
  {
    forall k | 0 <= k < |fs| ensures FieldDefReads(S.FieldSources(fs)[k], fs[k]) {
      DeprecationIsRead(fs[k].directives);
    }
  }

  /** The definitions of a kind are the ones listed, in order. */
  lemma {:induction false} OfKindLists(items: seq<S.SchemaItem>, kind: S.TypeDef -> bool, d: S.TypeDef)
    requires forall e :: kind(e) <==> SameKind(d, e)
    ensures var ds := S.OfKind(items, kind);
            && |ds| == CountLike(items, d)
            && forall p | 0 <= p < |items| && items[p].TypeDefinition? && kind(items[p].def) ::
                 CountLike(items[..p], d) < |ds| && ds[CountLike(items[..p], d)] == items[p].def
  {
    hide SameKind;
    if items != [] {
      var n := |items| - 1;
      OfKindLists(items[..n], kind, d);
      forall p | 0 <= p < |items| && items[p].TypeDefinition? && kind(items[p].def)
        ensures CountLike(items[..p], d) < |S.OfKind(items, kind)|
        ensures S.OfKind(items, kind)[CountLike(items[..p], d)] == items[p].def
      {
        if p < n {
          assert items[..n][..p] == items[..p] && items[..n][p] == items[p];
        }
      }
    }
  }

  lemma ContentsAreRead(items: seq<S.SchemaItem>)
    ensures SdlReads(items, S.ContentsOf(items))
  {
    var c := S.ContentsOf(items);
    OfKindLists(items, (d: S.TypeDef) => d.ScalarDef?, S.ScalarDef(""));
    OfKindLists(items, (d: S.TypeDef) => d.ObjectDef?, S.ObjectDef("", [], []));
    OfKindLists(items, (d: S.TypeDef) => d.InterfaceDef?, S.InterfaceDef("", []));
    OfKindLists(items, (d: S.TypeDef) => d.UnionDef?, S.UnionDef("", []));
    OfKindLists(items, (d: S.TypeDef) => d.EnumDef?, S.EnumDef("", []));
    OfKindLists(items, (d: S.TypeDef) => d.InputDef?, S.InputDef("", []));
    hide CountLike, S.OfKind, FieldDefsRead, S.FieldSources;
    forall p | 0 <= p < |items| && items[p].TypeDefinition?
      ensures DefReads(c, CountLike(items[..p], items[p].def), items[p].def)
    {
      var d := items[p].def;
      LikeCounts(items[..p], d);
      match d
      case ObjectDef(_, _, fields) => FieldDefsAreRead(fields);
      case InterfaceDef(_, fields) => FieldDefsAreRead(fields);
      case _ =>
    }
  }

  /** Counting depends on the kind only. */
  lemma {:induction false} SameCount(items: seq<S.SchemaItem>, d: S.TypeDef, e: S.TypeDef)
    requires SameKind(d, e)
    ensures CountLike(items, d) == CountLike(items, e)
  {
    if items != [] {
      SameCount(items[..|items| - 1], d, e);
    }
  }

  lemma LikeCounts(items: seq<S.SchemaItem>, d: S.TypeDef)
    ensures CountLike(items, d) ==
            match d
            case ScalarDef(_) => CountLike(items, S.ScalarDef(""))
            case ObjectDef(_, _, _) => CountLike(items, S.ObjectDef("", [], []))
            case InterfaceDef(_, _) => CountLike(items, S.InterfaceDef("", []))
            case UnionDef(_, _) => CountLike(items, S.UnionDef("", []))
            case EnumDef(_, _) => CountLike(items, S.EnumDef("", []))
            case InputDef(_, _) => CountLike(items, S.InputDef("", []))
  {
    match d
    case ScalarDef(_) => SameCount(items, d, S.ScalarDef(""));
    case ObjectDef(_, _, _) => SameCount(items, d, S.ObjectDef("", [], []));
    case InterfaceDef(_, _) => SameCount(items, d, S.InterfaceDef("", []));
    case UnionDef(_, _) => SameCount(items, d, S.UnionDef("", []));
    case EnumDef(_, _) => SameCount(items, d, S.EnumDef("", []));
    case InputDef(_, _) => SameCount(items, d, S.InputDef("", []));
  }

  lemma {:induction false} RootsAreRead(items: seq<S.SchemaItem>)
    ensures SdlRootsRead(items, S.RootsOf(items))
  {
    var roots := S.RootsOf(items);
    if items != [] && items[0].SchemaDefinition? {
      assert RootsAt(items, roots, 0);
    } else if items != [] {
      RootsAreRead(items[1..]);
      assert forall q | 0 < q < |items| :: items[q] == items[1..][q - 1];
      if p :| 0 <= p < |items| - 1 && RootsAt(items[1..], roots, p) {
        assert RootsAt(items, roots, p + 1);
      }
    }
  }

  /**
   A schema built from definitions: every type definition has its row among those of its
   kind, with its fields, their types and deprecations, its interfaces, members and values,
   and the roots are the objects with the names given, or else with the usual names.
   */
  lemma SdlReadsBack(items: seq<S.SchemaItem>, s: Schema)
    requires S.FromSdl(items) == Some(s)
    ensures exists c, roots :: SdlReads(items, c) && SdlRootsRead(items, roots) && TablesRead(s, c, roots)
  {
    hide SdlReads, SdlRootsRead, TablesRead, S.ContentsOf, S.RootsOf, SdlNames, InStep, Built;
    var c, roots := S.ContentsOf(items), S.RootsOf(items);
    ContentsAreRead(items);
    RootsAreRead(items);
    NamesAreInStep(c);
    BuiltReadsBack(SdlNames(c), c, roots);
  }

  // ----- Introspection data -----

  /** The reference is one to the type, through its lists and non-null types down to a name. */
  predicate Denotes(r: I.TypeRef, t: Ast.Type) {
    match t
    case NamedType(n) => r.kind.Some? && r.ofType.None? && r.name == Some(n)
    case ListType(inner) => r.kind == Some(I.LIST) && r.ofType.Some? && Denotes(r.ofType.value, inner)
    case NonNullType(inner) => r.kind == Some(I.NON_NULL) && r.ofType.Some? && Denotes(r.ofType.value, inner)
  }

  predicate JsonFieldReads(f: SourceField, j: I.JsonField) {
    && j.name == Some(f.name) && j.fieldType.Some? && Denotes(j.fieldType.value, f.fieldType)
    && (j.isDeprecated == Some(true) ==> f.deprecation == Some(j.deprecationReason))
    && (j.isDeprecated != Some(true) ==> f.deprecation == None)
  }

  predicate JsonFieldsRead(fs: seq<SourceField>, js: Option<seq<I.JsonField>>) {
    js.Some? && |fs| == |js.value| && forall k | 0 <= k < |fs| :: JsonFieldReads(fs[k], js.value[k])
  }

  predicate RefsRead(ns: seq<string>, rs: seq<I.TypeRef>) {
    |ns| == |rs| && forall k | 0 <= k < |ns| :: rs[k].name == Some(ns[k])
  }

  predicate JsonInputsRead(fs: seq<SourceInputField>, js: Option<seq<I.JsonInputField>>) {
    && js.Some? && |fs| == |js.value|
    && forall k | 0 <= k < |fs| :: fs[k].name == js.value[k].name && Denotes(js.value[k].fieldType, fs[k].fieldType)
  }

  /** The kinds that have tables; a scalar with the name of a built-in one is left out. */
  predicate HasRow(t: I.FullType) {
    match t.kind
    case Some(SCALAR) =>
      !(t.name == Some("ID") || t.name == Some("String") || t.name == Some("Int") || t.name == Some("Float")
        || t.name == Some("Boolean"))
    case Some(OBJECT) => true
    case Some(INTERFACE) => true
    case Some(UNION) => true
    case Some(ENUM) => true
    case Some(INPUT_OBJECT) => true
    case _ => false
  }

  /** The type is number `i` of its kind in the contents. */
  predicate JsonTypeReads(c: Contents, i: nat, t: I.FullType)
    requires HasRow(t)
  {
    match t.kind.value
    case SCALAR => i < |c.scalars| && t.name == Some(c.scalars[i])
    case OBJECT =>
      && i < |c.objects| && t.name == Some(c.objects[i].name) && JsonFieldsRead(c.objects[i].fields, t.fields)
      && RefsRead(c.objects[i].interfaces, if t.interfaces.Some? then t.interfaces.value else [])
    case INTERFACE =>
      && i < |c.interfaces| && t.name == Some(c.interfaces[i].name) && c.interfaces[i].interfaces == []
      && JsonFieldsRead(c.interfaces[i].fields, t.fields)
    case UNION =>
      && i < |c.unions| && t.name == Some(c.unions[i].name) && t.possibleTypes.Some?
      && RefsRead(c.unions[i].members, t.possibleTypes.value)
    case ENUM =>
      && i < |c.enums| && t.name == Some(c.enums[i].name) && t.enumValues.Some?
      && |c.enums[i].variants| == |t.enumValues.value|
      && forall k | 0 <= k < |c.enums[i].variants| :: t.enumValues.value[k] == Some(c.enums[i].variants[k])
    case _ =>
      i < |c.inputs| && t.name == Some(c.inputs[i].name) && JsonInputsRead(c.inputs[i].fields, t.inputFields)
  }

  /** How many of the types have rows of this kind. */
  function CountKind(types: seq<Option<I.FullType>>, kind: I.TypeKind): nat {
    if types == [] then 0
    else
      var last := types[|types| - 1];
      CountKind(types[..|types| - 1], kind)
      + if last.Some? && last.value.kind == Some(kind) && HasRow(last.value) then 1 else 0
  }

  predicate JsonReads(types: seq<Option<I.FullType>>, c: Contents) {
    && (forall p | 0 <= p < |types| && types[p].Some? && HasRow(types[p].value) ::
          JsonTypeReads(c, CountKind(types[..p], types[p].value.kind.value), types[p].value))
    && |c.scalars| == CountKind(types, I.SCALAR) && |c.objects| == CountKind(types, I.OBJECT)
    && |c.interfaces| == CountKind(types, I.INTERFACE) && |c.unions| == CountKind(types, I.UNION)
    && |c.enums| == CountKind(types, I.ENUM) && |c.inputs| == CountKind(types, I.INPUT_OBJECT)
  }

  /** A root is what the data names, if it names anything. */
  predicate JsonRootReads(root: Option<string>, j: Option<Option<string>>) {
    match j
    case Some(Some(n)) => root == Some(n)
    case _ => root == None
  }

  predicate JsonRootsRead(j: I.JsonSchema, roots: Roots) {
    && JsonRootReads(roots.query, j.queryType) && JsonRootReads(roots.mutation, j.mutationType)
    && JsonRootReads(roots.subscription, j.subscriptionType)
  }

  /** A reference is decoded to the one type it denotes, and to none if there is none. */
  lemma {:induction false} DecodedIsDenoted(r: I.TypeRef, t: Ast.Type)
    ensures I.DecodeType(r) == Some(t) <==> Denotes(r, t)
    decreases r
  {
    if r.ofType.Some? && (r.kind == Some(I.LIST) || r.kind == Some(I.NON_NULL)) {
      if !t.NamedType? {
        DecodedIsDenoted(r.ofType.value, t.inner);
      }
      forall u ensures I.DecodeType(r.ofType.value) == Some(u) <==> Denotes(r.ofType.value, u) {
        DecodedIsDenoted(r.ofType.value, u);
      }
    }
  }

  lemma JsonFieldIsRead(j: I.JsonField, f: SourceField)
    requires I.DecodeField(j) == Some(f)
    ensures JsonFieldReads(f, j)
  {
    DecodedIsDenoted(j.fieldType.value, f.fieldType);
  }

  lemma JsonFieldsAreRead(js: Option<seq<I.JsonField>>, fs: seq<SourceField>)
    requires js.Some? && Traverse(I.FieldDecoder(), js.value) == Some(fs)
    ensures JsonFieldsRead(fs, js)
  {
    forall k | 0 <= k < |fs| ensures JsonFieldReads(fs[k], js.value[k]) {
      assert I.FieldDecoder()(js.value[k]) == Some(fs[k]);
      JsonFieldIsRead(js.value[k], fs[k]);
    }
  }

  lemma RefsAreRead(rs: seq<I.TypeRef>, ns: seq<string>)
    requires Traverse(I.RefName(), rs) == Some(ns)
    ensures RefsRead(ns, rs)
  {
    forall k | 0 <= k < |ns| ensures rs[k].name == Some(ns[k]) {
      assert I.RefName()(rs[k]) == Some(ns[k]);
    }
  }

  lemma ScalarReads(c: Contents, i: nat, t: I.FullType)
    requires HasRow(t) && t.kind == Some(I.SCALAR) && i < |c.scalars| && I.DecodeScalar(t) == Some(c.scalars[i])
    ensures JsonTypeReads(c, i, t)
  {
  }

  lemma ObjectIsRead(c: Contents, i: nat, t: I.FullType)
    requires HasRow(t) && t.kind == Some(I.OBJECT) && i < |c.objects| && I.DecodeObject(t) == Some(c.objects[i])
    ensures JsonTypeReads(c, i, t)
  {
    JsonFieldsAreRead(t.fields, c.objects[i].fields);
    if t.interfaces.Some? {
      RefsAreRead(t.interfaces.value, c.objects[i].interfaces);
    }
  }

  lemma InterfaceIsRead(c: Contents, i: nat, t: I.FullType)
    requires HasRow(t) && t.kind == Some(I.INTERFACE)
    requires i < |c.interfaces| && I.DecodeInterface(t) == Some(c.interfaces[i])
    ensures JsonTypeReads(c, i, t)
  {
    JsonFieldsAreRead(t.fields, c.interfaces[i].fields);
  }

  lemma UnionIsRead(c: Contents, i: nat, t: I.FullType)
    requires HasRow(t) && t.kind == Some(I.UNION) && i < |c.unions| && I.DecodeUnion(t) == Some(c.unions[i])
    ensures JsonTypeReads(c, i, t)
  {
    RefsAreRead(t.possibleTypes.value, c.unions[i].members);
  }

  lemma EnumIsRead(c: Contents, i: nat, t: I.FullType)
    requires HasRow(t) && t.kind == Some(I.ENUM) && i < |c.enums| && I.DecodeEnum(t) == Some(c.enums[i])
    ensures JsonTypeReads(c, i, t)
  {
    var vs := c.enums[i].variants;
    forall k | 0 <= k < |vs| ensures t.enumValues.value[k] == Some(vs[k]) {
      assert I.Present()(t.enumValues.value[k]) == Some(vs[k]);
    }
  }

  lemma InputIsRead(c: Contents, i: nat, t: I.FullType)
    requires HasRow(t) && t.kind == Some(I.INPUT_OBJECT) && i < |c.inputs| && I.DecodeInput(t) == Some(c.inputs[i])
    ensures JsonTypeReads(c, i, t)
  {
    var js, fs := t.inputFields.value, c.inputs[i].fields;
    forall k | 0 <= k < |fs| ensures fs[k].name == js[k].name && Denotes(js[k].fieldType, fs[k].fieldType) {
      assert I.InputFieldDecoder()(js[k]) == Some(fs[k]);
      DecodedIsDenoted(js[k].fieldType, fs[k].fieldType);
    }
  }

  /** The types of a kind are the ones listed, in order. */
  lemma {:induction false} TypesAreListed(types: seq<Option<I.FullType>>, kind: I.TypeKind)
    requires kind in {I.OBJECT, I.INTERFACE, I.UNION, I.ENUM, I.INPUT_OBJECT}
    ensures Listed(types, kind, I.TypesOfKind(types, kind))
  {
    if types != [] {
      TypesAreListed(types[..|types| - 1], kind);
      ListedMore(types, kind, I.TypesOfKind(types[..|types| - 1], kind), I.TypesOfKind(types, kind));
    }
  }

  predicate Listed(types: seq<Option<I.FullType>>, kind: I.TypeKind, ts: seq<I.FullType>) {
    && |ts| == CountKind(types, kind)
    && forall p | 0 <= p < |types| && types[p].Some? && types[p].value.kind == Some(kind) && HasRow(types[p].value) ::
         CountKind(types[..p], kind) < |ts| && ts[CountKind(types[..p], kind)] == types[p].value
  }

  lemma ListedMore(types: seq<Option<I.FullType>>, kind: I.TypeKind, before: seq<I.FullType>, ts: seq<I.FullType>)
    requires types != [] && Listed(types[..|types| - 1], kind, before)
    requires var last := types[|types| - 1];
             ts == before +
                   if last.Some? && last.value.kind == Some(kind) && HasRow(last.value) then [last.value] else []
    ensures Listed(types, kind, ts)
  {
    hide HasRow;
    var n := |types| - 1;
    forall p | 0 <= p < |types| && types[p].Some? && types[p].value.kind == Some(kind) && HasRow(types[p].value)
      ensures CountKind(types[..p], kind) < |ts| && ts[CountKind(types[..p], kind)] == types[p].value
    {
      if p < n {
        assert types[..n][..p] == types[..p] && types[..n][p] == types[p];
      }
    }
  }

  lemma BuiltinNames(n: string)
    ensures n in DEFAULT_SCALARS <==> n == "ID" || n == "String" || n == "Int" || n == "Float" || n == "Boolean"
  {
    var ns := DEFAULT_SCALARS;
    assert ns[0] == "ID" && ns[1] == "String" && ns[2] == "Int" && ns[3] == "Float" && ns[4] == "Boolean";
  }

  lemma {:induction false} ScalarsAreListed(types: seq<Option<I.FullType>>)
    ensures Listed(types, I.SCALAR, I.OwnScalars(I.TypesOfKind(types, I.SCALAR)))
  {
    if types != [] {
      var init := I.TypesOfKind(types[..|types| - 1], I.SCALAR);
      ScalarsAreListed(types[..|types| - 1]);
      var last := types[|types| - 1];
      if last.Some? && last.value.kind == Some(I.SCALAR) {
        if last.value.name.Some? {
          BuiltinNames(last.value.name.value);
        }
        assert (init + [last.value])[..|init|] == init;
      } else {
        assert init + [] == init;
      }
      assert I.OwnScalars(init) + [] == I.OwnScalars(init);
      ListedMore(types, I.SCALAR, I.OwnScalars(init), I.OwnScalars(I.TypesOfKind(types, I.SCALAR)));
    }
  }

  /** Each kind in the contents is the one listed, decoded. */
  lemma ContentsDecode(types: seq<Option<I.FullType>>, c: Contents)
    requires I.ContentsOf(types) == Some(c)
    ensures Traverse(I.ScalarDecoder(), I.OwnScalars(I.TypesOfKind(types, I.SCALAR))) == Some(c.scalars)
    ensures Traverse(I.ObjectDecoder(), I.TypesOfKind(types, I.OBJECT)) == Some(c.objects)
    ensures Traverse(I.InterfaceDecoder(), I.TypesOfKind(types, I.INTERFACE)) == Some(c.interfaces)
    ensures Traverse(I.UnionDecoder(), I.TypesOfKind(types, I.UNION)) == Some(c.unions)
    ensures Traverse(I.EnumDecoder(), I.TypesOfKind(types, I.ENUM)) == Some(c.enums)
    ensures Traverse(I.InputDecoder(), I.TypesOfKind(types, I.INPUT_OBJECT)) == Some(c.inputs)
  {
    hide I.TypesOfKind, I.OwnScalars, Traverse;
  }

  lemma JsonContentsAreRead(types: seq<Option<I.FullType>>, c: Contents)
    requires I.ContentsOf(types) == Some(c)
    ensures JsonReads(types, c)
  {
    hide CountKind, I.TypesOfKind, I.OwnScalars, I.DecodeObject, I.DecodeInterface, I.DecodeUnion, I.DecodeEnum,
         I.DecodeInput, I.ContentsOf, Traverse, JsonTypeReads;
    ContentsDecode(types, c);
    ScalarsAreListed(types);
    TypesAreListed(types, I.OBJECT);
    TypesAreListed(types, I.INTERFACE);
    TypesAreListed(types, I.UNION);
    TypesAreListed(types, I.ENUM);
    TypesAreListed(types, I.INPUT_OBJECT);
    forall p | 0 <= p < |types| && types[p].Some? && HasRow(types[p].value)
      ensures JsonTypeReads(c, CountKind(types[..p], types[p].value.kind.value), types[p].value)
    {
      KindsWithRows(types[p].value);
      var t := types[p].value;
      var i := CountKind(types[..p], t.kind.value);
      match t.kind.value
      case SCALAR =>
        assert I.ScalarDecoder()(t) == Some(c.scalars[i]);
        ScalarReads(c, i, t);
      case OBJECT =>
        assert I.ObjectDecoder()(t) == Some(c.objects[i]);
        ObjectIsRead(c, i, t);
      case INTERFACE =>
        assert I.InterfaceDecoder()(t) == Some(c.interfaces[i]);
        InterfaceIsRead(c, i, t);
      case UNION =>
        assert I.UnionDecoder()(t) == Some(c.unions[i]);
        UnionIsRead(c, i, t);
      case ENUM =>
        assert I.EnumDecoder()(t) == Some(c.enums[i]);
        EnumIsRead(c, i, t);
      case INPUT_OBJECT =>
        assert I.InputDecoder()(t) == Some(c.inputs[i]);
        InputIsRead(c, i, t);
    }
  }

  lemma KindsWithRows(t: I.FullType)
    ensures HasRow(t) ==>
              && t.kind.Some?
              && t.kind.value in {I.SCALAR, I.OBJECT, I.INTERFACE, I.UNION, I.ENUM, I.INPUT_OBJECT}
  {
  }

  /** A schema built from introspection data holds every type of the data, with all that the data says of it. */
  lemma JsonReadsBack(j: I.JsonSchema, s: Schema)
    requires I.FromJson(j) == Some(s)
    ensures j.types.Some?
    ensures exists c, roots :: JsonReads(j.types.value, c) && JsonRootsRead(j, roots) && TablesRead(s, c, roots)
  {
    hide JsonReads, TablesRead, I.ContentsOf, JsonNames, InStep, Built;
    var c, roots := I.ContentsOf(j.types.value).value, I.RootsOf(j);
    JsonContentsAreRead(j.types.value, c);
    assert JsonRootsRead(j, roots);
    NamesAreInStep(c);
    BuiltReadsBack(JsonNames(c), c, roots);
  }

  // ----- When there are contents -----

  ghost predicate Convertible(r: I.TypeRef) {
    exists t :: Denotes(r, t)
  }

  ghost predicate JsonFieldComplete(j: I.JsonField) {
    j.name.Some? && j.fieldType.Some? && Convertible(j.fieldType.value)
  }

  /** The data of the type has all that a builder reads of it. */
  ghost predicate JsonTypeComplete(t: I.FullType)
    requires HasRow(t)
  {
    && t.name.Some?
    && match t.kind.value
       case SCALAR => true
       case OBJECT =>
         && t.fields.Some? && (forall k | 0 <= k < |t.fields.value| :: JsonFieldComplete(t.fields.value[k]))
         && (t.interfaces.Some? ==> forall k | 0 <= k < |t.interfaces.value| :: t.interfaces.value[k].name.Some?)
       case INTERFACE =>
         t.fields.Some? && forall k | 0 <= k < |t.fields.value| :: JsonFieldComplete(t.fields.value[k])
       case UNION =>
         t.possibleTypes.Some? && forall k | 0 <= k < |t.possibleTypes.value| :: t.possibleTypes.value[k].name.Some?
       case ENUM =>
         t.enumValues.Some? && forall k | 0 <= k < |t.enumValues.value| :: t.enumValues.value[k].Some?
       case _ =>
         && t.inputFields.Some?
         && forall k | 0 <= k < |t.inputFields.value| :: Convertible(t.inputFields.value[k].fieldType)
  }

  lemma DecodesExactlyWhen(r: I.TypeRef)
    ensures I.DecodeType(r).Some? <==> Convertible(r)
  {
    if I.DecodeType(r).Some? {
      DecodedIsDenoted(r, I.DecodeType(r).value);
    }
    if t :| Denotes(r, t) {
      DecodedIsDenoted(r, t);
    }
  }

  lemma FieldsDecodeExactlyWhen(js: seq<I.JsonField>)
    ensures Traverse(I.FieldDecoder(), js).Some? <==> forall k | 0 <= k < |js| :: JsonFieldComplete(js[k])
  {
    TraverseExactlyWhen(I.FieldDecoder(), js);
    forall k | 0 <= k < |js| ensures I.FieldDecoder()(js[k]).Some? <==> JsonFieldComplete(js[k]) {
      if js[k].fieldType.Some? {
        DecodesExactlyWhen(js[k].fieldType.value);
      }
    }
  }

  /** The decoder of the kind. */
  predicate Decodes(t: I.FullType)
    requires HasRow(t)
  {
    match t.kind.value
    case SCALAR => I.DecodeScalar(t).Some?
    case OBJECT => I.DecodeObject(t).Some?
    case INTERFACE => I.DecodeInterface(t).Some?
    case UNION => I.DecodeUnion(t).Some?
    case ENUM => I.DecodeEnum(t).Some?
    case _ => I.DecodeInput(t).Some?
  }

  lemma TypeDecodesExactlyWhen(t: I.FullType)
    requires HasRow(t)
    ensures Decodes(t) <==> JsonTypeComplete(t)
  {
    hide Traverse, Convertible;
    if t.fields.Some? {
      FieldsDecodeExactlyWhen(t.fields.value);
    }
    if t.interfaces.Some? {
      TraverseExactlyWhen(I.RefName(), t.interfaces.value);
    }
    if t.possibleTypes.Some? {
      TraverseExactlyWhen(I.RefName(), t.possibleTypes.value);
    }
    if t.enumValues.Some? {
      TraverseExactlyWhen(I.Present(), t.enumValues.value);
    }
    if t.inputFields.Some? {
      var js := t.inputFields.value;
      TraverseExactlyWhen(I.InputFieldDecoder(), js);
      forall k | 0 <= k < |js| ensures I.InputFieldDecoder()(js[k]).Some? <==> Convertible(js[k].fieldType) {
        DecodesExactlyWhen(js[k].fieldType);
      }
    }
  }

  /** Everything in the data that gets a row is complete. */
  ghost predicate AllComplete(types: seq<Option<I.FullType>>) {
    forall p | 0 <= p < |types| && types[p].Some? && HasRow(types[p].value) :: JsonTypeComplete(types[p].value)
  }

  lemma {:induction false} KindHolds(types: seq<Option<I.FullType>>, kind: I.TypeKind, t: I.FullType)
    ensures t in I.TypesOfKind(types, kind) <==> Some(t) in types && t.kind == Some(kind)
  {
    if types != [] {
      KindHolds(types[..|types| - 1], kind, t);
      assert forall u :: u in types <==> u in types[..|types| - 1] || u == types[|types| - 1];
    }
  }

  lemma {:induction false} OwnScalarsHold(scalars: seq<I.FullType>, t: I.FullType)
    ensures t in I.OwnScalars(scalars) <==> t in scalars && !(t.name.Some? && t.name.value in DEFAULT_SCALARS)
  {
    if scalars != [] {
      OwnScalarsHold(scalars[..|scalars| - 1], t);
      assert forall u :: u in scalars <==> u in scalars[..|scalars| - 1] || u == scalars[|scalars| - 1];
    }
  }

  /** The types of this kind that get rows can be decoded. */
  ghost predicate KindDecodes(types: seq<Option<I.FullType>>, kind: I.TypeKind) {
    forall t | Some(t) in types && t.kind == Some(kind) && HasRow(t) :: Decodes(t)
  }

  lemma AllOfKind<R>(types: seq<Option<I.FullType>>, kind: I.TypeKind, f: I.FullType -> Option<R>)
    requires kind in {I.OBJECT, I.INTERFACE, I.UNION, I.ENUM, I.INPUT_OBJECT}
    requires forall t: I.FullType | t.kind == Some(kind) :: f(t).Some? <==> Decodes(t)
    ensures Traverse(f, I.TypesOfKind(types, kind)).Some? <==> KindDecodes(types, kind)
  {
    var ts := I.TypesOfKind(types, kind);
    TraverseExactlyWhen(f, ts);
    forall t ensures t in ts <==> Some(t) in types && t.kind == Some(kind) { KindHolds(types, kind, t); }
    hide Decodes, Traverse, I.TypesOfKind;
    assert forall i | 0 <= i < |ts| :: ts[i] in ts;
  }

  lemma ScalarsWithRows(types: seq<Option<I.FullType>>, t: I.FullType)
    ensures t in I.OwnScalars(I.TypesOfKind(types, I.SCALAR)) <==>
            Some(t) in types && t.kind == Some(I.SCALAR) && HasRow(t)
  {
    KindHolds(types, I.SCALAR, t);
    OwnScalarsHold(I.TypesOfKind(types, I.SCALAR), t);
    hide I.OwnScalars, I.TypesOfKind;
    if t.name.Some? {
      BuiltinNames(t.name.value);
    }
  }

  lemma ScalarDecodes(t: I.FullType)
    requires t.kind == Some(I.SCALAR) && HasRow(t)
    ensures I.ScalarDecoder()(t).Some? <==> Decodes(t)
  {
  }

  lemma AllScalars(types: seq<Option<I.FullType>>)
    ensures Traverse(I.ScalarDecoder(), I.OwnScalars(I.TypesOfKind(types, I.SCALAR))).Some? <==>
            KindDecodes(types, I.SCALAR)
  {
    var ts := I.OwnScalars(I.TypesOfKind(types, I.SCALAR));
    TraverseExactlyWhen(I.ScalarDecoder(), ts);
    forall t ensures t in ts <==> Some(t) in types && t.kind == Some(I.SCALAR) && HasRow(t) {
      ScalarsWithRows(types, t);
    }
    forall t: I.FullType | t.kind == Some(I.SCALAR) && HasRow(t) ensures I.ScalarDecoder()(t).Some? <==> Decodes(t) {
      ScalarDecodes(t);
    }
    hide Traverse, I.TypesOfKind, I.OwnScalars, I.ScalarDecoder, HasRow, Decodes;
    assert forall i | 0 <= i < |ts| :: ts[i] in ts;
  }

  lemma ContentsExactlyWhen(types: seq<Option<I.FullType>>)
    ensures I.ContentsOf(types).Some? <==> AllComplete(types)
  {
    hide Traverse, I.TypesOfKind, I.OwnScalars, I.DecodeObject, I.DecodeInterface, I.DecodeUnion, I.DecodeEnum,
         I.DecodeInput, JsonTypeComplete;
    AllScalars(types);
    AllOfKind(types, I.OBJECT, I.ObjectDecoder());
    AllOfKind(types, I.INTERFACE, I.InterfaceDecoder());
    AllOfKind(types, I.UNION, I.UnionDecoder());
    AllOfKind(types, I.ENUM, I.EnumDecoder());
    AllOfKind(types, I.INPUT_OBJECT, I.InputDecoder());
    forall t | HasRow(t) ensures Decodes(t) <==> JsonTypeComplete(t) { TypeDecodesExactlyWhen(t); }
    EveryKind(types);
  }

  lemma EveryKind(types: seq<Option<I.FullType>>)
    requires forall t | HasRow(t) :: Decodes(t) <==> JsonTypeComplete(t)
    ensures AllComplete(types) <==>
              && KindDecodes(types, I.SCALAR) && KindDecodes(types, I.OBJECT) && KindDecodes(types, I.INTERFACE)
              && KindDecodes(types, I.UNION) && KindDecodes(types, I.ENUM) && KindDecodes(types, I.INPUT_OBJECT)
  {
    hide Decodes, JsonTypeComplete, HasRow;
    forall t ensures HasRow(t) ==>
      t.kind.Some? && t.kind.value in {I.SCALAR, I.OBJECT, I.INTERFACE, I.UNION, I.ENUM, I.INPUT_OBJECT}
    {
      KindsWithRows(t);
    }
    assert forall p | 0 <= p < |types| :: types[p] in types;
    if !AllComplete(types) {
      var p :| 0 <= p < |types| && types[p].Some? && HasRow(types[p].value) && !JsonTypeComplete(types[p].value);
      assert !KindDecodes(types, types[p].value.kind.value);
    } else {
      forall t | Some(t) in types && HasRow(t) ensures Decodes(t) {
        var p: nat :| p < |types| && types[p] == Some(t);
      }
    }
  }

  /** Exactly when the builders return a schema, and do not panic. */
  lemma BuildExactlyWhen(items: seq<S.SchemaItem>, j: I.JsonSchema)
    ensures var c := S.ContentsOf(items); S.FromSdl(items).Some? <==> AllResolve(SdlNames(c), c)
    ensures I.FromJson(j).Some? <==>
              && j.types.Some? && AllComplete(j.types.value)
              && I.ContentsOf(j.types.value).Some?
              && var c := I.ContentsOf(j.types.value).value; AllResolve(JsonNames(c), c)
  {
    hide AllComplete, AllResolve, S.ContentsOf, I.ContentsOf, SdlNames, JsonNames, Built;
    var c := S.ContentsOf(items);
    BuiltExactlyWhen(SdlNames(c), c, S.RootsOf(items));
    if j.types.Some? {
      ContentsExactlyWhen(j.types.value);
      if I.ContentsOf(j.types.value).Some? {
        var k := I.ContentsOf(j.types.value).value;
        BuiltExactlyWhen(JsonNames(k), k, I.RootsOf(j));
      }
    }
  }
}
