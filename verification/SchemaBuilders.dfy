/** The tables of crates/codegen/src/schema.rs while they are being filled. */
module SchemaBuilders {
  import opened Wrappers
  import opened Schemas
  import opened SchemaTables

  class SchemaBuilder {
    var objects: seq<StoredObject>
    var fields: seq<StoredField>
    var interfaces: seq<StoredInterface>
    var unions: seq<StoredUnion>
    var scalars: seq<string>
    var enums: seq<StoredEnum>
    var inputs: seq<StoredInput>
    var names: map<string, TypeId>
    var queryType: Option<nat>
    var mutationType: Option<nat>
    var subscriptionType: Option<nat>

    ghost function Abs(): Schema
      reads this
    {
      Schema(objects, fields, interfaces, unions, scalars, enums, inputs, names,
             queryType, mutationType, subscriptionType)
    }

    /** `Schema::new`: empty but for the built-in scalars. */
    constructor ()
      ensures Abs() == Schema([], [], [], [], DEFAULT_SCALARS, [], [], Builtin(), None, None, None)
    {
      objects, fields, interfaces, unions, scalars, enums, inputs := [], [], [], [], [], [], [];
      names := map[];
      queryType, mutationType, subscriptionType := None, None, None;
      new;
      for i := 0 to |DEFAULT_SCALARS|
        invariant Abs() == Schema([], [], [], [], DEFAULT_SCALARS[..i], [], [],
                                  WithNames(map[], DEFAULT_SCALARS[..i], BuiltinScalars), None, None, None)
      {
        assert DEFAULT_SCALARS[..i + 1][..i] == DEFAULT_SCALARS[..i];
        var id := PushScalar(DEFAULT_SCALARS[i]);
        names := names[DEFAULT_SCALARS[i] := ScalarId(id)];
      }
      assert DEFAULT_SCALARS[..|DEFAULT_SCALARS|] == DEFAULT_SCALARS;
    }

    method PushScalar(name: string) returns (id: nat)
      modifies this`scalars
      ensures id == |old(scalars)| && scalars == old(scalars) + [name]
    {
      id := |scalars|;
      scalars := scalars + [name];
    }

    method PushField(f: StoredField) returns (id: nat)
      modifies this`fields
      ensures id == |old(fields)| && fields == old(fields) + [f]
    {
      id := |fields|;
      fields := fields + [f];
    }

    /** The names of one kind, numbered. */
    method InsertNames(ns: seq<string>, kind: NameKind)
      modifies this`names
      ensures names == WithNames(old(names), ns, kind)
    {
      for i := 0 to |ns|
        invariant names == WithNames(old(names), ns[..i], kind)
      {
        assert ns[..i + 1][..i] == ns[..i];
        names := names[ns[i] := IdOf(kind, i)];
      }
      assert ns[..|ns|] == ns;
    }

    /** A scalar's row and its entry in the index. */
    method IngestScalar(name: string)
      modifies this`scalars, this`names
      ensures scalars == old(scalars) + [name]
      ensures names == old(names)[name := ScalarId(|old(scalars)|)]
    {
      var id := PushScalar(name);
      names := names[name := ScalarId(id)];
    }

    method SetRoots(roots: Roots)
      modifies this`queryType, this`mutationType, this`subscriptionType
      ensures queryType == RootId(names, roots.query)
      ensures mutationType == RootId(names, roots.mutation)
      ensures subscriptionType == RootId(names, roots.subscription)
    {
      queryType := RootId(names, roots.query);
      mutationType := RootId(names, roots.mutation);
      subscriptionType := RootId(names, roots.subscription);
    }
  }
}
