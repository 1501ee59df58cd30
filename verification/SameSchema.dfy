/**
 Both schema builders give the same schema for definitions and for introspection data that
 describes them, and what they give can be looked up throughout.
 */
module SameSchema {
  import opened Wrappers
  import opened Schemas
  import opened SchemaTables
  import opened SchemaValidity
  import I = Introspection
  import S = SdlBuilder

  /** A root operation is shown as it was defined, but not if there is no such object type. */
  predicate RootShown(c: Contents, defined: Option<string>, shown: Option<string>) {
    shown == defined || (shown.None? && defined.Some? && defined.value !in ObjectNames(c.objects))
  }

  predicate RootsShown(c: Contents, defined: Roots, shown: Roots) {
    && RootShown(c, defined.query, shown.query)
    && RootShown(c, defined.mutation, shown.mutation)
    && RootShown(c, defined.subscription, shown.subscription)
  }

  lemma RootShownIsSame(c: Contents, defined: Option<string>, shown: Option<string>)
    requires RootShown(c, defined, shown)
    ensures RootId(SdlNames(c), defined) == RootId(SdlNames(c), shown)
  {
    if shown != defined {
      SdlNamesGive(c, defined.value);
    }
  }

  lemma InterfacesImplementNothing(items: seq<S.SchemaItem>)
    ensures var c := S.ContentsOf(items);
            forall i | 0 <= i < |c.interfaces| :: c.interfaces[i].interfaces == []
  {
  }

  lemma SameRootsBuildSame(c: Contents, defined: Roots, shown: Roots)
    requires RootsShown(c, defined, shown)
    ensures Built(SdlNames(c), c, defined) == Built(SdlNames(c), c, shown)
  {
    hide RootShown, RootId, SdlNames;
    RootShownIsSame(c, defined.query, shown.query);
    RootShownIsSame(c, defined.mutation, shown.mutation);
    RootShownIsSame(c, defined.subscription, shown.subscription);
  }

  /**
   The builders agree, on tables, ids, index and root types and on whether they can build at
   all, when the kinds are apart; and where both build, only then.
   */
  lemma {:induction false} BuildersAgree(items: seq<S.SchemaItem>, j: I.JsonSchema, kindOf: string -> I.TypeKind)
    requires j.types.Some? && I.Describes(j.types.value, S.ContentsOf(items), kindOf)
    requires RootsShown(S.ContentsOf(items), S.RootsOf(items), I.RootsOf(j))
    ensures KindsApart(S.ContentsOf(items)) ==> I.FromJson(j) == S.FromSdl(items)
    ensures S.FromSdl(items).Some? && I.FromJson(j).Some? ==>
              (I.FromJson(j) == S.FromSdl(items) <==> KindsApart(S.ContentsOf(items)))
  {
    hide S.ContentsOf, S.RootsOf, I.RootsOf, I.ContentsOf, I.Describes, KindsApart, SdlNames, JsonNames, RootsShown;
    var c := S.ContentsOf(items);
    InterfacesImplementNothing(items);
    I.DescribedIsRead(j.types.value, c, kindOf);
    SameNamesIffKindsApart(c);
    SameRootsBuildSame(c, S.RootsOf(items), I.RootsOf(j));
  }

  /** Whatever is built, from either form, every name has an entry of that name, and every id is in range. */
  lemma {:induction false} BuiltSchemasAreValid(items: seq<S.SchemaItem>, j: I.JsonSchema)
    ensures S.FromSdl(items).Some? ==> S.FromSdl(items).value.Valid()
    ensures I.FromJson(j).Some? ==> I.FromJson(j).value.Valid()
  {
    hide S.ContentsOf, S.RootsOf, I.RootsOf, I.ContentsOf, SdlNames, JsonNames, Built, InStep;
    var c := S.ContentsOf(items);
    NamesAreInStep(c);
    if S.FromSdl(items).Some? {
      BuiltIsValid(c, SdlNames(c), S.RootsOf(items));
    }
    if I.FromJson(j).Some? {
      var d := I.ContentsOf(j.types.value).value;
      NamesAreInStep(d);
      BuiltIsValid(d, JsonNames(d), I.RootsOf(j));
    }
  }

  // ----- Every schema can be described -----

  function Scalars(ns: seq<string>): seq<I.FullType> {
    seq(|ns|, i requires 0 <= i < |ns| => I.RenderScalar(ns[i]))
  }

  function Listed(ts: seq<I.FullType>): seq<Option<I.FullType>> {
    seq(|ts|, i requires 0 <= i < |ts| => Some(ts[i]))
  }

  /** The definitions of one kind as introspection data, the built-in scalars among the scalars. */
  function RenderedKind(c: Contents, kindOf: string -> I.TypeKind, kind: I.TypeKind): (ts: seq<I.FullType>)
    ensures forall i | 0 <= i < |ts| :: ts[i].kind == Some(kind)
  {
    match kind
    case SCALAR => Scalars(DEFAULT_SCALARS) + Scalars(c.scalars)
    case ENUM => seq(|c.enums|, i requires 0 <= i < |c.enums| => I.RenderEnum(c.enums[i]))
    case UNION => seq(|c.unions|, i requires 0 <= i < |c.unions| => I.RenderUnion(c.unions[i], kindOf))
    case INTERFACE =>
      seq(|c.interfaces|, i requires 0 <= i < |c.interfaces| => I.RenderInterface(c.interfaces[i], kindOf))
    case OBJECT => seq(|c.objects|, i requires 0 <= i < |c.objects| => I.RenderObject(c.objects[i], kindOf))
    case INPUT_OBJECT => seq(|c.inputs|, i requires 0 <= i < |c.inputs| => I.RenderInput(c.inputs[i], kindOf))
    case _ => []
  }

  function Rendered(c: Contents, kindOf: string -> I.TypeKind): seq<Option<I.FullType>> {
    Listed(RenderedKind(c, kindOf, I.SCALAR)) +
    (Listed(RenderedKind(c, kindOf, I.ENUM)) +
    (Listed(RenderedKind(c, kindOf, I.UNION)) +
    (Listed(RenderedKind(c, kindOf, I.INTERFACE)) +
    (Listed(RenderedKind(c, kindOf, I.OBJECT)) + Listed(RenderedKind(c, kindOf, I.INPUT_OBJECT))))))
  }

  lemma {:induction false} KindOfBoth(xs: seq<Option<I.FullType>>, ys: seq<Option<I.FullType>>, kind: I.TypeKind)
    ensures I.TypesOfKind(xs + ys, kind) == I.TypesOfKind(xs, kind) + I.TypesOfKind(ys, kind)
  {
    if ys == [] {
      assert xs + ys == xs;
    } else {
      KindOfBoth(xs, ys[..|ys| - 1], kind);
      assert (xs + ys)[..|xs + ys| - 1] == xs + ys[..|ys| - 1];
    }
  }

  lemma {:induction false} KindOfSame(ts: seq<I.FullType>, own: I.TypeKind, kind: I.TypeKind)
    requires forall i | 0 <= i < |ts| :: ts[i].kind == Some(own)
    ensures I.TypesOfKind(Listed(ts), kind) == if kind == own then ts else []
  {
    if ts != [] {
      KindOfSame(ts[..|ts| - 1], own, kind);
      assert Listed(ts)[..|ts| - 1] == Listed(ts[..|ts| - 1]);
    }
  }

  lemma {:induction false} OnlyOwnScalars(ns: seq<string>)
    requires forall i | 0 <= i < |ns| :: ns[i] !in DEFAULT_SCALARS
    ensures I.OwnScalars(Scalars(DEFAULT_SCALARS) + Scalars(ns)) == Scalars(ns)
    decreases |ns|
  {
    var all := Scalars(DEFAULT_SCALARS) + Scalars(ns);
    if ns == [] {
      NoneOfDefault(|DEFAULT_SCALARS|);
      assert all == Scalars(DEFAULT_SCALARS)[..|DEFAULT_SCALARS|];
    } else {
      OnlyOwnScalars(ns[..|ns| - 1]);
      assert all[..|all| - 1] == Scalars(DEFAULT_SCALARS) + Scalars(ns[..|ns| - 1]);
    }
  }

  lemma {:induction false} NoneOfDefault(n: nat)
    requires n <= |DEFAULT_SCALARS|
    ensures I.OwnScalars(Scalars(DEFAULT_SCALARS)[..n]) == []
  {
    if n > 0 {
      NoneOfDefault(n - 1);
      assert Scalars(DEFAULT_SCALARS)[..n][..n - 1] == Scalars(DEFAULT_SCALARS)[..n - 1];
      assert DEFAULT_SCALARS[n - 1] in DEFAULT_SCALARS;
    }
  }

  lemma RenderedByKind(c: Contents, kindOf: string -> I.TypeKind, kind: I.TypeKind)
    ensures I.TypesOfKind(Rendered(c, kindOf), kind) == RenderedKind(c, kindOf, kind)
  {
    hide I.TypesOfKind, Listed;
    var scalars, enums := RenderedKind(c, kindOf, I.SCALAR), RenderedKind(c, kindOf, I.ENUM);
    var unions, interfaces := RenderedKind(c, kindOf, I.UNION), RenderedKind(c, kindOf, I.INTERFACE);
    var objects, inputs := RenderedKind(c, kindOf, I.OBJECT), RenderedKind(c, kindOf, I.INPUT_OBJECT);
    KindOfSame(scalars, I.SCALAR, kind);
    KindOfSame(enums, I.ENUM, kind);
    KindOfSame(unions, I.UNION, kind);
    KindOfSame(interfaces, I.INTERFACE, kind);
    KindOfSame(objects, I.OBJECT, kind);
    KindOfSame(inputs, I.INPUT_OBJECT, kind);
    KindOfBoth(Listed(objects), Listed(inputs), kind);
    KindOfBoth(Listed(interfaces), Listed(objects) + Listed(inputs), kind);
    KindOfBoth(Listed(unions), Listed(interfaces) + (Listed(objects) + Listed(inputs)), kind);
    KindOfBoth(Listed(enums), Listed(unions) + (Listed(interfaces) + (Listed(objects) + Listed(inputs))), kind);
    KindOfBoth(Listed(scalars),
               Listed(enums) + (Listed(unions) + (Listed(interfaces) + (Listed(objects) + Listed(inputs)))), kind);
  }

  /** Definitions that redefine no built-in scalar can be rendered as data that describes them. */
  lemma RenderedDescribes(c: Contents, kindOf: string -> I.TypeKind)
    requires forall i | 0 <= i < |c.scalars| :: c.scalars[i] !in DEFAULT_SCALARS
    ensures I.Describes(Rendered(c, kindOf), c, kindOf)
  {
    hide Rendered, I.TypesOfKind, I.OwnScalars, I.RenderEnum, I.RenderUnion, I.RenderInterface, I.RenderObject,
         I.RenderInput;
    OnlyOwnScalars(c.scalars);
    RenderedByKind(c, kindOf, I.SCALAR);
    RenderedByKind(c, kindOf, I.ENUM);
    RenderedByKind(c, kindOf, I.UNION);
    RenderedByKind(c, kindOf, I.INTERFACE);
    RenderedByKind(c, kindOf, I.OBJECT);
    RenderedByKind(c, kindOf, I.INPUT_OBJECT);
  }

  // ----- One name for two kinds -----

  /** A scalar and an enum of the same name. */
  function Twice(name: string): seq<S.SchemaItem> {
    [S.TypeDefinition(S.ScalarDef(name))] + [S.TypeDefinition(S.EnumDef(name, []))]
  }

  function TwiceContents(name: string): Contents {
    Contents([name], [StoredEnum(name, [])], [], [], [], [])
  }

  lemma OfTwoKinds(name: string, kind: S.TypeDef -> bool)
    ensures var c, e := S.ScalarDef(name), S.EnumDef(name, []);
            S.OfKind(Twice(name), kind) == (if kind(c) then [c] else []) + (if kind(e) then [e] else [])
  {
    var items := Twice(name);
    assert items[..|items| - 1] == [items[0]] && [items[0]][..0] == [];
    assert S.OfKind([], kind) == [];
    assert S.OfKind([items[0]], kind) == if kind(items[0].def) then [items[0].def] else [];
  }

  lemma TwiceHolds(name: string)
    ensures S.ContentsOf(Twice(name)) == TwiceContents(name)
  {
    hide S.OfKind;
    var c, e := S.ScalarDef(name), S.EnumDef(name, []);
    forall kind: S.TypeDef -> bool
      ensures S.OfKind(Twice(name), kind) == (if kind(c) then [c] else []) + (if kind(e) then [e] else [])
    {
      OfTwoKinds(name, kind);
    }
    var items := Twice(name);
    assert S.ScalarDefs(items) == [c] && S.EnumDefs(items) == [e];
    assert S.NamesOf([c]) == [name];
    assert S.UnionDefs(items) == [] && S.InterfaceDefs(items) == [] && S.ObjectDefs(items) == []
           && S.InputDefs(items) == [];
    assert S.ContentsOf(items).enums == [StoredEnum(name, [])];
  }

  lemma TwiceIsBuilt(names: map<string, TypeId>, name: string, roots: Roots)
    ensures var r := Built(names, TwiceContents(name), roots);
            r.Some? && r.value.names == names
  {
  }

  lemma TwiceNamed(name: string)
    ensures var c := TwiceContents(name);
            && name in SdlNames(c) && SdlNames(c)[name].ScalarId?
            && name in JsonNames(c) && JsonNames(c)[name].EnumId?
  {
    var c := TwiceContents(name);
    SdlNamesGive(c, name);
    JsonNamesGive(c, name);
    hide SdlNames, JsonNames;
    assert EnumNames(c.enums) == [name];
  }

  /** From the same definitions the builders make two schemas, which differ in what the name stands for. */
  lemma {:induction false} BuildersCanDiffer(name: string, kindOf: string -> I.TypeKind) returns (j: I.JsonSchema)
    requires name !in DEFAULT_SCALARS
    ensures j.types.Some? && I.Describes(j.types.value, S.ContentsOf(Twice(name)), kindOf)
    ensures S.FromSdl(Twice(name)).Some? && S.FromSdl(Twice(name)).value.FindType(name).Some?
    ensures I.FromJson(j).Some? && I.FromJson(j).value.FindType(name).Some?
    ensures S.FromSdl(Twice(name)).value.FindType(name).value.ScalarId?
    ensures I.FromJson(j).value.FindType(name).value.EnumId?
  {
    TwiceHolds(name);
    var c := TwiceContents(name);
    hide S.ContentsOf, I.ContentsOf, I.Describes, Built, SdlNames, JsonNames, Rendered;
    j := I.JsonSchema(None, None, None, Some(Rendered(c, kindOf)));
    RenderedDescribes(c, kindOf);
    I.DescribedIsRead(j.types.value, c, kindOf);
    TwiceIsBuilt(SdlNames(c), name, S.RootsOf(Twice(name)));
    TwiceIsBuilt(JsonNames(c), name, I.RootsOf(j));
    TwiceNamed(name);
  }
}
