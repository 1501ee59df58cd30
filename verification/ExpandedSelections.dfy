/**
 `calculate_selection` with its growing vectors, and what comes out of it: every struct has
 exactly the fields, variants and aliases that belong to what it was made for.

 `Added` says what a stretch of pushes amounts to: what one struct got by it, and which new
 structs it made, each complete.  Every method is proved to add what `Expansion` calls for,
 and the lemmas put such stretches together.
 */
module ExpandedSelections {
  import opened Wrappers
  import opened Schemas
  import opened Arenas
  import opened ArenaShape
  import opened ReadBack
  import opened Walks
  import opened UsedTypes
  import opened Expansion

  /** The vectors; `origins` says what each struct in `types` was made for. */
  datatype Out = Out(
    types: seq<string>, fields: seq<ExpandedField>, variants: seq<ExpandedVariant>, aliases: seq<TypeAlias>,
    origins: seq<Origin>)

  // ----- What belongs to one struct -----

  function FieldsOn(fields: seq<ExpandedField>, s: nat): seq<ExpandedField> {
    if fields == [] then []
    else
      var last := fields[|fields| - 1];
      FieldsOn(fields[..|fields| - 1], s) + if last.structId == s then [last] else []
  }

  function VariantsOn(variants: seq<ExpandedVariant>, s: nat): seq<ExpandedVariant> {
    if variants == [] then []
    else
      var last := variants[|variants| - 1];
      VariantsOn(variants[..|variants| - 1], s) + if last.on == s then [last] else []
  }

  function AliasesOn(aliases: seq<TypeAlias>, s: nat): seq<TypeAlias> {
    if aliases == [] then []
    else
      var last := aliases[|aliases| - 1];
      AliasesOn(aliases[..|aliases| - 1], s) + if last.structId == s then [last] else []
  }

  function On(out: Out, s: nat): Parts {
    Parts(FieldsOn(out.fields, s), VariantsOn(out.variants, s), AliasesOn(out.aliases, s))
  }

  /** Every recorded struct id is that of a struct. */
  predicate IdsInRange(out: Out) {
    && |out.origins| == |out.types|
    && (forall k | 0 <= k < |out.fields| :: out.fields[k].structId < |out.types|)
    && (forall k | 0 <= k < |out.variants| :: out.variants[k].on < |out.types|)
    && (forall k | 0 <= k < |out.aliases| :: out.aliases[k].structId < |out.types|)
  }

  lemma {:induction false} NoFieldsYet(fields: seq<ExpandedField>, s: nat)
    requires forall k | 0 <= k < |fields| :: fields[k].structId < s
    ensures FieldsOn(fields, s) == []
  {
    if fields != [] {
      NoFieldsYet(fields[..|fields| - 1], s);
    }
  }

  lemma {:induction false} NoVariantsYet(variants: seq<ExpandedVariant>, s: nat)
    requires forall k | 0 <= k < |variants| :: variants[k].on < s
    ensures VariantsOn(variants, s) == []
  {
    if variants != [] {
      NoVariantsYet(variants[..|variants| - 1], s);
    }
  }

  lemma {:induction false} NoAliasesYet(aliases: seq<TypeAlias>, s: nat)
    requires forall k | 0 <= k < |aliases| :: aliases[k].structId < s
    ensures AliasesOn(aliases, s) == []
  {
    if aliases != [] {
      NoAliasesYet(aliases[..|aliases| - 1], s);
    }
  }

  // ----- Steps -----

  /** Struct `j` is done: it has its name, and what belongs to what it was made for. */
  predicate Settled(cx: Context, out: Out, j: nat)
    requires Ready(cx)
  {
    && j < |out.types| && j < |out.origins| && OriginOk(cx, out.origins[j])
    && out.types[j] == StructName(cx, out.origins[j])
    && On(out, j) == PartsOf(cx, out.origins[j], j)
  }

  /**
   From `before` to `after`, struct `s` got the parts, no other old struct got any, and the
   new structs are those of `made`, all done.
   */
  ghost predicate Added(cx: Context, before: Out, after: Out, s: nat, parts: Parts, made: seq<Origin>)
    requires Ready(cx)
  {
    && IdsInRange(before) && IdsInRange(after) && s < |before.types|
    && before.types <= after.types && after.origins == before.origins + made
    && (forall j: nat | j < |before.types| ::
          On(after, j) == if j == s then On(before, j).And(parts) else On(before, j))
    && (forall j: nat | |before.types| <= j < |after.types| :: Settled(cx, after, j))
  }

  lemma AddedNothing(cx: Context, out: Out, s: nat)
    requires Ready(cx) && IdsInRange(out) && s < |out.types|
    ensures Added(cx, out, out, s, NONE, [])
  {
  }

  lemma AddedTwice(cx: Context, before: Out, mid: Out, after: Out, s: nat, p: Parts, q: Parts,
                   made: seq<Origin>, more: seq<Origin>)
    requires Ready(cx) && Added(cx, before, mid, s, p, made) && Added(cx, mid, after, s, q, more)
    ensures Added(cx, before, after, s, p.And(q), made + more)
  {
    hide Ready, On, OriginOk, StructName, PartsOf;
    forall j: nat | j < |before.types|
      ensures On(after, j) == if j == s then On(before, j).And(p.And(q)) else On(before, j)
    {
      assert On(mid, j) == if j == s then On(before, j).And(p) else On(before, j);
      AndAssociates(On(before, j), p, q);
    }
    forall j: nat | |before.types| <= j < |after.types| ensures Settled(cx, after, j) {
      if j < |mid.types| {
        assert Settled(cx, mid, j) && On(after, j) == On(mid, j);
        assert mid.origins[j] == after.origins[j];
      }
    }
  }

  lemma AndAssociates(p: Parts, q: Parts, r: Parts)
    ensures p.And(q).And(r) == p.And(q.And(r))
  {
  }

  /** A field, variant or alias more. */
  lemma AddedField(cx: Context, out: Out, f: ExpandedField)
    requires Ready(cx) && IdsInRange(out) && f.structId < |out.types|
    ensures Added(cx, out, out.(fields := out.fields + [f]), f.structId, Parts([f], [], []), [])
  {
    hide Ready, Settled;
    assert (out.fields + [f])[..|out.fields|] == out.fields;
  }

  lemma AddedVariant(cx: Context, out: Out, v: ExpandedVariant)
    requires Ready(cx) && IdsInRange(out) && v.on < |out.types|
    ensures Added(cx, out, out.(variants := out.variants + [v]), v.on, Parts([], [v], []), [])
  {
    hide Ready, Settled;
    assert (out.variants + [v])[..|out.variants|] == out.variants;
  }

  lemma AddedAlias(cx: Context, out: Out, a: TypeAlias)
    requires Ready(cx) && IdsInRange(out) && a.structId < |out.types|
    ensures Added(cx, out, out.(aliases := out.aliases + [a]), a.structId, Parts([], [], [a]), [])
  {
    hide Ready, Settled;
    assert (out.aliases + [a])[..|out.aliases|] == out.aliases;
  }

  function WithType(out: Out, name: string, o: Origin): Out {
    out.(types := out.types + [name], origins := out.origins + [o])
  }

  /**
   A struct pushed and then given all that belongs to it is done; the struct it was pushed for
   got nothing by that.
   */
  lemma AddedStruct(cx: Context, before: Out, after: Out, s: nat, name: string, o: Origin, made: seq<Origin>)
    requires Ready(cx) && IdsInRange(before) && s < |before.types| && OriginOk(cx, o) && name == StructName(cx, o)
    requires var n := |before.types|;
             Added(cx, WithType(before, name, o), after, n, PartsOf(cx, o, n), made)
    ensures Added(cx, before, after, s, NONE, [o] + made)
  {
    hide Ready, OriginOk, StructName, PartsOf;
    var n := |before.types|;
    var mid := WithType(before, name, o);
    NoFieldsYet(before.fields, n);
    NoVariantsYet(before.variants, n);
    NoAliasesYet(before.aliases, n);
    assert before.origins + [o] + made == before.origins + ([o] + made);
    forall j: nat | j < n ensures On(after, j) == if j == s then On(before, j).And(NONE) else On(before, j) {
      assert On(after, j) == On(mid, j);
    }
    assert On(mid, n) == NONE;
    assert NONE.And(PartsOf(cx, o, n)) == PartsOf(cx, o, n);
    assert Settled(cx, after, n);
  }

  // ----- The code -----

  class ExpandedSelection {
    const cx: Context
    var types: seq<string>
    var fields: seq<ExpandedField>
    var variants: seq<ExpandedVariant>
    var aliases: seq<TypeAlias>
    ghost var origins: seq<Origin>

    ghost function Abs(): Out
      reads this
    {
      Out(types, fields, variants, aliases, origins)
    }

    constructor (cx: Context)
      ensures this.cx == cx && Abs() == Out([], [], [], [], [])
    {
      this.cx := cx;
      types, fields, variants, aliases, origins := [], [], [], [], [];
    }

    method PushType(name: string, ghost o: Origin) returns (id: nat)
      modifies this
      ensures id == |old(types)| && Abs() == WithType(old(Abs()), name, o)
    {
      id := |types|;
      types := types + [name];
      origins := origins + [o];
    }

    method PushField(f: ExpandedField)
      requires Ready(cx) && IdsInRange(Abs()) && f.structId < |types|
      modifies this
      ensures Abs() == old(Abs()).(fields := old(fields) + [f])
      ensures Added(cx, old(Abs()), Abs(), f.structId, Parts([f], [], []), [])
    {
      AddedField(cx, Abs(), f);
      fields := fields + [f];
    }

    method PushVariant(v: ExpandedVariant)
      requires Ready(cx) && IdsInRange(Abs()) && v.on < |types|
      modifies this
      ensures Abs() == old(Abs()).(variants := old(variants) + [v])
      ensures Added(cx, old(Abs()), Abs(), v.on, Parts([], [v], []), [])
    {
      AddedVariant(cx, Abs(), v);
      variants := variants + [v];
    }

    method PushTypeAlias(a: TypeAlias)
      requires Ready(cx) && IdsInRange(Abs()) && a.structId < |types|
      modifies this
      ensures Abs() == old(Abs()).(aliases := old(aliases) + [a])
      ensures Added(cx, old(Abs()), Abs(), a.structId, Parts([], [], [a]), [])
    {
      AddedAlias(cx, Abs(), a);
      aliases := aliases + [a];
    }

    /** `calculate_selection`: struct `s` gets what the selections `ids` on type `t` call for. */
    method CalculateSelection(ids: seq<nat>, s: nat, t: TypeId)
      requires Ready(cx) && IdsInRange(Abs()) && s < |types| && InTable(cx.a, ids) && cx.schema.Has(t)
      modifies this
      ensures Added(cx, old(Abs()), Abs(), s, PartsFor(cx, ids, t, s), Structs(cx, ids, t))
      decreases |cx.a.nodes| - First(ids, |cx.a.nodes|), 3
    {
      hide Walkable, Linked, NodesInRange, SelectsNoInputs, RootsInRange, IdsInRange, Added, AllFields, AllVariants,
           VariantStructs, FieldStructs, Variants;
      if Lone(cx, ids) {
        LoneSpread(cx, ids, t, s);
        PushTypeAlias(SpreadAlias(cx, cx.a.nodes[ids[0]].fragmentId, s));
        return;
      }
      ghost var start := Abs();
      ExpandVariants(ids, s, t);
      ghost var mid := Abs();
      AddedInRange(cx, start, mid, s, VariantsSoFar(cx, ids, t, Variants(cx, t), s),
                   VariantStructs(cx, ids, t, Variants(cx, t)));
      ExpandFields(ids, s, t);
      WholeParts(cx, ids, t, s);
      AddedTwice(cx, start, mid, Abs(), s, VariantsSoFar(cx, ids, t, Variants(cx, t), s), FieldsSoFar(cx, ids, t, s),
                 VariantStructs(cx, ids, t, Variants(cx, t)), FieldStructs(cx, ids));
    }

    /** The exhaustive enum, on a union or an interface. */
    method ExpandVariants(ids: seq<nat>, s: nat, t: TypeId)
      requires Ready(cx) && IdsInRange(Abs()) && s < |types| && InTable(cx.a, ids) && cx.schema.Has(t)
      modifies this
      ensures Added(cx, old(Abs()), Abs(), s, VariantsSoFar(cx, ids, t, Variants(cx, t), s),
                    VariantStructs(cx, ids, t, Variants(cx, t)))
      decreases |cx.a.nodes| - First(ids, |cx.a.nodes|), 2, 1
    {
      hide Walkable, Linked, NodesInRange, SelectsNoInputs, RootsInRange, IdsInRange, Added, OneVariantStructs,
           VariantFor;
      ghost var start := Abs();
      AddedNothing(cx, start, s);
      var vs := Variants(cx, t);
      for i := 0 to |vs|
        invariant AllHave(cx.schema, vs[..i])
        invariant Added(cx, start, Abs(), s, VariantsSoFar(cx, ids, t, vs[..i], s), VariantStructs(cx, ids, t, vs[..i]))
      {
        ghost var mid := Abs();
        AddedInRange(cx, start, mid, s, VariantsSoFar(cx, ids, t, vs[..i], s), VariantStructs(cx, ids, t, vs[..i]));
        VariantsMore(cx, ids, t, vs, s, i);
        ExpandVariant(ids, s, t, vs[i]);
        AddedTwice(cx, start, mid, Abs(), s, VariantsSoFar(cx, ids, t, vs[..i], s),
                   Parts([], [VariantFor(cx, ids, t, vs[i], s)], []),
                   VariantStructs(cx, ids, t, vs[..i]), OneVariantStructs(cx, ids, t, vs[i]));
      }
      assert vs[..|vs|] == vs;
    }

    method ExpandVariant(ids: seq<nat>, s: nat, t: TypeId, v: TypeId)
      requires Ready(cx) && IdsInRange(Abs()) && s < |types| && InTable(cx.a, ids) && cx.schema.Has(v)
      modifies this
      ensures Added(cx, old(Abs()), Abs(), s, Parts([], [VariantFor(cx, ids, t, v, s)], []),
                    OneVariantStructs(cx, ids, t, v))
      decreases |cx.a.nodes| - First(ids, |cx.a.nodes|), 2, 0
    {
      hide Walkable, Linked, NodesInRange, SelectsNoInputs, RootsInRange, IdsInRange, Added, Matching, InnerStructs,
           OneVariantStructs, OriginOk, PathName, StructName, VariantStruct;
      ghost var start := Abs();
      var ms := Matching(cx, ids, t, v);
      OneVariantMakes(cx, ids, t, v);
      if ms == [] {
        PushVariant(ExpandedVariant(s, cx.schema.TypeName(v), None));
        return;
      }
      MatchingFirst(cx, ids, t, v);
      var prefix := FullPathPrefix(cx.schema, cx.a, ms[0], cx.camel);
      PathNameIs(cx, ms[0]);
      var name := prefix + "On" + cx.schema.TypeName(v);
      VariantNameIs(cx, ms, v);
      PushVariant(ExpandedVariant(s, cx.schema.TypeName(v), Some(name)));
      ghost var mid := Abs();
      ghost var variant := Parts([], [VariantFor(cx, ids, t, v, s)], []);
      AddedInRange(cx, start, mid, s, variant, []);
      ExpandVariantStruct(ms, s, v, name);
      AddedTwice(cx, start, mid, Abs(), s, variant, NONE, [], VariantStruct(cx, ms, v));
      AndNone(variant);
      assert [] + VariantStruct(cx, ms, v) == VariantStruct(cx, ms, v);
    }

    /** The struct with the data of a variant. */
    method ExpandVariantStruct(ms: seq<nat>, s: nat, v: TypeId, name: string)
      requires Ready(cx) && IdsInRange(Abs()) && s < |types| && cx.schema.Has(v) && OriginOk(cx, FromVariant(ms, v))
      requires name == StructName(cx, FromVariant(ms, v))
      modifies this
      ensures Added(cx, old(Abs()), Abs(), s, NONE, VariantStruct(cx, ms, v))
      decreases |cx.a.nodes| - ms[0], 1, 1
    {
      hide Walkable, Linked, NodesInRange, SelectsNoInputs, RootsInRange, IdsInRange, Added, InnerStructs, PartsOfEach,
           VariantParts, StructName, PartsOf, SpreadRecursive;
      ghost var start := Abs();
      ghost var o := FromVariant(ms, v);
      WithTypeInRange(start, name, o);
      var id := PushType(name, o);
      ghost var made := VariantStruct(cx, ms, v)[1..];
      VariantGets(cx, ms, v, id);
      if |ms| == 1 && cx.a.nodes[ms[0]].FragmentSpread? {
        PushTypeAlias(SpreadAlias(cx, cx.a.nodes[ms[0]].fragmentId, id));
      } else {
        ExpandEach(ms, ms[0], id, v);
      }
      AddedStruct(cx, start, Abs(), s, name, o, made);
    }

    /** The selections on one variant; inline fragments all expand the selections under the first selection. */
    method ExpandEach(ms: seq<nat>, first: nat, s: nat, v: TypeId)
      requires Ready(cx) && IdsInRange(Abs()) && s < |types| && AllNodes(cx.a, ms) && first < |cx.a.nodes|
      requires cx.schema.Has(v)
      modifies this
      ensures Added(cx, old(Abs()), Abs(), s, PartsOfEach(cx, ms, first, v, s), InnerStructs(cx, ms, first, v))
      decreases |cx.a.nodes| - first, 1, 0
    {
      hide Walkable, Linked, NodesInRange, SelectsNoInputs, RootsInRange, IdsInRange, Added, PartsFor, Structs;
      ghost var start := Abs();
      AddedNothing(cx, start, s);
      for i := 0 to |ms|
        invariant AllNodes(cx.a, ms[..i])
        invariant Added(cx, start, Abs(), s, PartsOfEach(cx, ms[..i], first, v, s), InnerStructs(cx, ms[..i], first, v))
      {
        ghost var mid := Abs();
        ghost var parts, made := PartsOfEach(cx, ms[..i], first, v, s), InnerStructs(cx, ms[..i], first, v);
        AddedInRange(cx, start, mid, s, parts, made);
        assert ms[..i + 1][..i] == ms[..i];
        NodeAt(cx.schema, cx.a, first);
        NodeAt(cx.schema, cx.a, ms[i]);
        match cx.a.nodes[ms[i]] {
          case InlineFragment(_, _) =>
            var below := cx.a.nodes[first].Subselection();
            CalculateSelection(below, s, v);
            AddedTwice(cx, start, mid, Abs(), s, parts, PartsFor(cx, below, v, s), made, Structs(cx, below, v));
          case FragmentSpread(f) =>
            PushField(SpreadField(cx, f, s));
            AddedTwice(cx, start, mid, Abs(), s, parts, Parts([SpreadField(cx, f, s)], [], []), made, []);
            assert made + [] == made;
          case _ =>
            AndNone(parts);
            assert made + [] == made;
        }
      }
      assert ms[..|ms|] == ms;
    }

    /** The fields of the struct, with the structs of composite ones. */
    method ExpandFields(ids: seq<nat>, s: nat, t: TypeId)
      requires Ready(cx) && IdsInRange(Abs()) && s < |types| && InTable(cx.a, ids) && cx.schema.Has(t)
      modifies this
      ensures Added(cx, old(Abs()), Abs(), s, FieldsSoFar(cx, ids, t, s), FieldStructs(cx, ids))
      decreases |cx.a.nodes| - First(ids, |cx.a.nodes|), 1
    {
      hide Walkable, Linked, NodesInRange, SelectsNoInputs, RootsInRange, IdsInRange, Added, OneFieldStructs, FieldFor;
      ghost var start := Abs();
      AddedNothing(cx, start, s);
      for i := 0 to |ids|
        invariant InTable(cx.a, ids[..i])
        invariant Added(cx, start, Abs(), s, FieldsSoFar(cx, ids[..i], t, s), FieldStructs(cx, ids[..i]))
      {
        ghost var mid := Abs();
        AddedInRange(cx, start, mid, s, FieldsSoFar(cx, ids[..i], t, s), FieldStructs(cx, ids[..i]));
        FieldsMore(cx, ids, t, s, i);
        ExpandField(ids[i], s, t);
        AddedTwice(cx, start, mid, Abs(), s, FieldsSoFar(cx, ids[..i], t, s), Parts(FieldFor(cx, ids[i], t, s), [], []),
                   FieldStructs(cx, ids[..i]), OneFieldStructs(cx, ids[i]));
      }
      assert ids[..|ids|] == ids;
    }

    method ExpandField(id: nat, s: nat, t: TypeId)
      requires Ready(cx) && IdsInRange(Abs()) && s < |types| && id < |cx.a.nodes| && cx.schema.Has(t)
      modifies this
      ensures Added(cx, old(Abs()), Abs(), s, Parts(FieldFor(cx, id, t, s), [], []), OneFieldStructs(cx, id))
      decreases |cx.a.nodes| - id, 0, 1
    {
      hide Walkable, Linked, NodesInRange, SelectsNoInputs, RootsInRange, IdsInRange, Added, Structs, PartsFor;
      ghost var start := Abs();
      AddedNothing(cx, start, s);
      NodeAt(cx.schema, cx.a, id);
      match cx.a.nodes[id] {
        case Field(alias, f, _) =>
          var field := cx.schema.fields[f];
          var name := if alias.Some? then alias.value else field.name;
          var on := field.fieldType.id;
          FieldTypeKnown(cx, id);
          if on.EnumId? {
            PushField(ExpandedField(s, Some(name), cx.typeName(cx.schema.enums[on.id].name), field.fieldType.qualifiers,
                                    false, field.deprecation, false));
          } else if on.ScalarId? {
            PushField(ExpandedField(s, Some(name), cx.typeName(cx.schema.scalars[on.id]), field.fieldType.qualifiers,
                                    false, field.deprecation, false));
          } else {
            ExpandComposite(id, s, t);
          }
        case FragmentSpread(f) =>
          if cx.a.fragments[f].on == t {
            PushField(SpreadField(cx, f, s));
          }
        case _ =>
      }
    }

    /** A field of composite type, and its struct. */
    method ExpandComposite(id: nat, s: nat, t: TypeId)
      requires Ready(cx) && IdsInRange(Abs()) && s < |types| && id < |cx.a.nodes| && cx.schema.Has(t)
      requires IsCompositeField(cx, id)
      modifies this
      ensures Added(cx, old(Abs()), Abs(), s, Parts(FieldFor(cx, id, t, s), [], []), OneFieldStructs(cx, id))
      decreases |cx.a.nodes| - id, 0, 0
    {
      hide Walkable, Linked, NodesInRange, SelectsNoInputs, RootsInRange, IdsInRange, Added, Structs, PartsFor;
      ghost var start := Abs();
      NodeAt(cx.schema, cx.a, id);
      FieldTypeKnown(cx, id);
      var node := cx.a.nodes[id];
      var field := cx.schema.fields[node.fieldId];
      var structName := FullPathPrefix(cx.schema, cx.a, id, cx.camel);
      var e := ExpandedField(s, Some(if node.alias.Some? then node.alias.value else field.name), structName,
                             field.fieldType.qualifiers, false, field.deprecation, false);
      PushField(e);
      ghost var mid := Abs();
      ghost var parts := Parts([e], [], []);
      AddedInRange(cx, start, mid, s, parts, []);
      ghost var o := FromField(id);
      WithTypeInRange(mid, structName, o);
      var n := PushType(structName, o);
      CalculateSelection(node.selectionSet, n, field.fieldType.id);
      ghost var below := Structs(cx, node.selectionSet, field.fieldType.id);
      AddedStruct(cx, mid, Abs(), s, structName, o, below);
      AddedTwice(cx, start, mid, Abs(), s, parts, NONE, [], [o] + below);
      AndNone(parts);
      assert [] + ([o] + below) == [o] + below;
    }
  }

  // ----- Putting the steps together -----

  function VariantsSoFar(cx: Context, ids: seq<nat>, t: TypeId, vs: seq<TypeId>, s: nat): Parts
    requires Ready(cx) && InTable(cx.a, ids) && AllHave(cx.schema, vs)
  {
    Parts([], AllVariants(cx, ids, t, vs, s), [])
  }

  function FieldsSoFar(cx: Context, ids: seq<nat>, t: TypeId, s: nat): Parts
    requires Ready(cx) && InTable(cx.a, ids)
  {
    Parts(AllFields(cx, ids, t, s), [], [])
  }

  lemma AddedInRange(cx: Context, before: Out, after: Out, s: nat, parts: Parts, made: seq<Origin>)
    requires Ready(cx) && Added(cx, before, after, s, parts, made)
    ensures IdsInRange(after) && s < |before.types| <= |after.types|
  {
  }

  lemma AndNone(p: Parts)
    ensures p.And(NONE) == p
  {
  }

  lemma WithTypeInRange(out: Out, name: string, o: Origin)
    requires IdsInRange(out)
    ensures IdsInRange(WithType(out, name, o))
  {
  }

  lemma LoneSpread(cx: Context, ids: seq<nat>, t: TypeId, s: nat)
    requires Ready(cx) && InTable(cx.a, ids) && Lone(cx, ids) && cx.schema.Has(t)
    ensures ids[0] < |cx.a.nodes| && cx.a.nodes[ids[0]].FragmentSpread?
            && cx.a.nodes[ids[0]].fragmentId < |cx.a.fragments|
    ensures PartsFor(cx, ids, t, s) == Parts([], [], [SpreadAlias(cx, cx.a.nodes[ids[0]].fragmentId, s)])
    ensures Structs(cx, ids, t) == []
  {
    assert ids[0] in ids;
    NodeAt(cx.schema, cx.a, ids[0]);
  }

  lemma WholeParts(cx: Context, ids: seq<nat>, t: TypeId, s: nat)
    requires Ready(cx) && InTable(cx.a, ids) && !Lone(cx, ids) && cx.schema.Has(t)
    ensures VariantsSoFar(cx, ids, t, Variants(cx, t), s).And(FieldsSoFar(cx, ids, t, s)) == PartsFor(cx, ids, t, s)
    ensures Structs(cx, ids, t) == VariantStructs(cx, ids, t, Variants(cx, t)) + FieldStructs(cx, ids)
  {
    hide Ready, Variants, VariantStructs, FieldStructs, AllFields, AllVariants;
  }

  lemma PathNameIs(cx: Context, id: nat)
    requires Ready(cx) && id < |cx.a.nodes| && !cx.a.nodes[id].Typename?
    ensures var chain := ChainTo(cx.a, id);
            PathName(cx, id) == RootSegment(cx.a, RootOf(cx.a, id), cx.camel) +
              Segments(cx.schema, cx.a, if cx.a.nodes[id].Field? then chain else chain[..|chain| - 1], cx.camel)
  {
  }

  lemma VariantNameIs(cx: Context, ms: seq<nat>, v: TypeId)
    requires Ready(cx) && OriginOk(cx, FromVariant(ms, v))
    ensures StructName(cx, FromVariant(ms, v)) == PathName(cx, ms[0]) + "On" + cx.schema.TypeName(v)
  {
  }

  /** The structs made for one variant with data. */
  function VariantStruct(cx: Context, ms: seq<nat>, v: TypeId): seq<Origin>
    requires Ready(cx) && cx.schema.Has(v) && ms != [] && AllNodes(cx.a, ms)
  {
    [FromVariant(ms, v)] + if |ms| == 1 && cx.a.nodes[ms[0]].FragmentSpread? then [] else InnerStructs(cx, ms, ms[0], v)
  }

  lemma OneVariantMakes(cx: Context, ids: seq<nat>, t: TypeId, v: TypeId)
    requires Ready(cx) && InTable(cx.a, ids) && cx.schema.Has(v)
    ensures var ms := Matching(cx, ids, t, v);
            && (ms == [] ==> OneVariantStructs(cx, ids, t, v) == [])
            && (ms != [] ==> AllNodes(cx.a, ms) && OneVariantStructs(cx, ids, t, v) == VariantStruct(cx, ms, v))
  {
    if Matching(cx, ids, t, v) != [] {
      MatchingFirst(cx, ids, t, v);
    }
  }

  lemma VariantGets(cx: Context, ms: seq<nat>, v: TypeId, s: nat)
    requires Ready(cx) && OriginOk(cx, FromVariant(ms, v))
    ensures PartsOf(cx, FromVariant(ms, v), s) == VariantParts(cx, ms, v, s)
    ensures |ms| == 1 && cx.a.nodes[ms[0]].FragmentSpread? ==>
              && cx.a.nodes[ms[0]].fragmentId < |cx.a.fragments|
              && VariantParts(cx, ms, v, s) == Parts([], [], [SpreadAlias(cx, cx.a.nodes[ms[0]].fragmentId, s)])
    ensures !(|ms| == 1 && cx.a.nodes[ms[0]].FragmentSpread?) ==>
            VariantParts(cx, ms, v, s) == PartsOfEach(cx, ms, ms[0], v, s)
  {
    NodeAt(cx.schema, cx.a, ms[0]);
  }

  lemma VariantsMore(cx: Context, ids: seq<nat>, t: TypeId, vs: seq<TypeId>, s: nat, i: nat)
    requires Ready(cx) && InTable(cx.a, ids) && AllHave(cx.schema, vs) && i < |vs|
    ensures cx.schema.Has(vs[i]) && AllHave(cx.schema, vs[..i]) && AllHave(cx.schema, vs[..i + 1])
    ensures VariantsSoFar(cx, ids, t, vs[..i], s).And(Parts([], [VariantFor(cx, ids, t, vs[i], s)], [])) ==
            VariantsSoFar(cx, ids, t, vs[..i + 1], s)
    ensures VariantStructs(cx, ids, t, vs[..i]) + OneVariantStructs(cx, ids, t, vs[i]) ==
            VariantStructs(cx, ids, t, vs[..i + 1])
  {
    hide Ready, OneVariantStructs, VariantFor;
    assert vs[..i + 1][..i] == vs[..i];
  }

  lemma FieldsMore(cx: Context, ids: seq<nat>, t: TypeId, s: nat, i: nat)
    requires Ready(cx) && InTable(cx.a, ids) && i < |ids|
    ensures InTable(cx.a, ids[..i]) && InTable(cx.a, ids[..i + 1]) && ids[0] <= ids[i] < |cx.a.nodes|
    ensures FieldsSoFar(cx, ids[..i], t, s).And(Parts(FieldFor(cx, ids[i], t, s), [], [])) ==
            FieldsSoFar(cx, ids[..i + 1], t, s)
    ensures FieldStructs(cx, ids[..i]) + OneFieldStructs(cx, ids[i]) == FieldStructs(cx, ids[..i + 1])
  {
    hide Ready, OneFieldStructs, FieldFor;
    PartInTable(cx.a, ids, i);
    assert ids[..i + 1][..i] == ids[..i];
    InitInTable(cx.a, ids[..i + 1]);
  }

  lemma MatchingFirst(cx: Context, ids: seq<nat>, t: TypeId, v: TypeId)
    requires Ready(cx) && InTable(cx.a, ids) && Matching(cx, ids, t, v) != [] && cx.schema.Has(v)
    ensures var ms := Matching(cx, ids, t, v);
            && AllNodes(cx.a, ms) && OriginOk(cx, FromVariant(ms, v))
            && First(ids, |cx.a.nodes|) <= ms[0] < |cx.a.nodes|
            && Linked(cx.a) && NodesInRange(cx.schema, cx.a)
            && (cx.a.nodes[ms[0]].FragmentSpread? ==> cx.a.nodes[ms[0]].fragmentId < |cx.a.fragments|)
  {
    var ms := Matching(cx, ids, t, v);
    assert ms[0] in ms && forall k | 0 <= k < |ms| :: ms[k] in ms;
    FirstIsFirst(cx.a, ids, ms[0]);
    NodeAt(cx.schema, cx.a, ms[0]);
  }

  lemma FieldTypeKnown(cx: Context, id: nat)
    requires Ready(cx) && id < |cx.a.nodes| && cx.a.nodes[id].Field?
    ensures Linked(cx.a) && NodesInRange(cx.schema, cx.a)
    ensures cx.a.nodes[id].fieldId < |cx.schema.fields| && OriginOk(cx, FromField(id))
    ensures var on := cx.schema.fields[cx.a.nodes[id].fieldId].fieldType.id;
            cx.schema.Has(on) && !on.InputId?
  {
    NodeAt(cx.schema, cx.a, id);
    assert HasChildren(cx.a.nodes[id]) && !SelectedAt(cx.schema, cx.a, id).InputId?;
  }

  // ----- Whole expansions -----

  function RootSelections(cx: Context, root: Parent): (seq<nat>, TypeId)
    requires IsRoot(root) && HasParent(cx.a, root)
  {
    match root
    case OfFragment(f) => (cx.a.fragments[f].selectionSet, cx.a.fragments[f].on)
    case OfOperation(n) => (cx.a.operations[n].selectionSet, ObjectId(cx.a.operations[n].objectId))
  }

  lemma RootKnown(cx: Context, root: Parent)
    requires Ready(cx) && IsRoot(root) && HasParent(cx.a, root)
    ensures OriginOk(cx, FromRoot(root))
    ensures var (ids, t) := RootSelections(cx, root);
            && InTable(cx.a, ids) && cx.schema.Has(t)
            && forall s :: PartsOf(cx, FromRoot(root), s) == PartsFor(cx, ids, t, s)
  {
  }

  /** A whole expansion: the root's struct and then those its selections call for, all done. */
  ghost predicate Whole(cx: Context, root: Parent, out: Out)
    requires Ready(cx) && IsRoot(root) && HasParent(cx.a, root)
  {
    && IdsInRange(out)
    && (var (ids, t) := RootSelections(cx, root);
        InTable(cx.a, ids) && cx.schema.Has(t) && out.origins == [FromRoot(root)] + Structs(cx, ids, t))
    && forall j: nat | j < |out.types| :: Settled(cx, out, j)
  }

  /**
   `render_response_data_fields` and `render_fragment`: all struct ids are in range, the
   structs are the root's and then those its selections call for, and each has its name and
   exactly what belongs to it.
   */
  method ExpandRoot(cx: Context, root: Parent) returns (e: ExpandedSelection)
    requires Ready(cx) && IsRoot(root) && HasParent(cx.a, root)
    ensures fresh(e) && e.cx == cx && Whole(cx, root, e.Abs())
  {
    RootKnown(cx, root);
    hide Ready, Structs, PartsFor, OriginOk, On, Added, Settled, StructName;
    e := new ExpandedSelection(cx);
    var name := if root.OfFragment? then cx.a.fragments[root.id].name else cx.a.operations[root.id].name;
    ghost var o := FromRoot(root);
    RootName(cx, root);
    var id := e.PushType(name, o);
    ghost var start := e.Abs();
    var (ids, t) := RootSelections(cx, root);
    e.CalculateSelection(ids, id, t);
    AllSettled(cx, start, e.Abs(), root, Structs(cx, ids, t));
  }

  lemma RootName(cx: Context, root: Parent)
    requires Ready(cx) && IsRoot(root) && HasParent(cx.a, root)
    ensures OriginOk(cx, FromRoot(root))
    ensures StructName(cx, FromRoot(root)) ==
            if root.OfFragment? then cx.a.fragments[root.id].name else cx.a.operations[root.id].name
  {
  }

  lemma RootSettled(cx: Context, start: Out, out: Out, root: Parent)
    requires Ready(cx) && IsRoot(root) && HasParent(cx.a, root)
    requires start.fields == [] && start.variants == [] && start.aliases == []
    requires 0 < |out.types| && out.types[0] == StructName(cx, FromRoot(root))
    requires 0 < |out.origins| && out.origins[0] == FromRoot(root)
    requires var (ids, t) := RootSelections(cx, root);
             On(out, 0) == On(start, 0).And(PartsFor(cx, ids, t, 0))
    ensures Settled(cx, out, 0)
  {
    var (ids, t) := RootSelections(cx, root);
    RootKnown(cx, root);
    assert On(start, 0) == NONE;
    assert NONE.And(PartsFor(cx, ids, t, 0)) == PartsFor(cx, ids, t, 0);
  }

  lemma AllSettled(cx: Context, start: Out, out: Out, root: Parent, made: seq<Origin>)
    requires Ready(cx) && IsRoot(root) && HasParent(cx.a, root)
    requires OriginOk(cx, FromRoot(root))
    requires start == Out([StructName(cx, FromRoot(root))], [], [], [], [FromRoot(root)])
    requires var (ids, t) := RootSelections(cx, root);
             InTable(cx.a, ids) && cx.schema.Has(t) && Added(cx, start, out, 0, PartsFor(cx, ids, t, 0), made)
    ensures IdsInRange(out) && out.origins == [FromRoot(root)] + made
    ensures forall j: nat | j < |out.types| :: Settled(cx, out, j)
  {
    hide Ready, PartsFor, OriginOk, StructName, On, Settled;
    RootSettled(cx, start, out, root);
  }

  // ----- What that means for enums -----

  /** The selections a struct was expanded from, and their type; those of a variant's struct may be several. */
  function SelectionsOf(cx: Context, o: Origin): Option<(seq<nat>, TypeId)>
    requires Ready(cx) && OriginOk(cx, o)
  {
    match o
    case FromRoot(root) => Some(RootSelections(cx, root))
    case FromField(id) =>
      assert NodeWalkable(cx.schema, cx.a, id);
      Some((cx.a.nodes[id].selectionSet, cx.schema.fields[cx.a.nodes[id].fieldId].fieldType.id))
    case FromVariant(_, _) => None
  }

  /** One variant for each possible type, in schema order, with data exactly if some selection is on it. */
  ghost predicate OneVariantEach(cx: Context, ids: seq<nat>, t: TypeId, vs: seq<ExpandedVariant>)
    requires Ready(cx) && InTable(cx.a, ids) && cx.schema.Has(t)
  {
    var possible := cx.schema.PossibleTypes(t);
    && AllHave(cx.schema, possible) && |vs| == |possible|
    && forall k | 0 <= k < |vs| ::
         && vs[k].name == cx.schema.TypeName(possible[k])
         && (vs[k].variantType.Some? <==> exists id | id in ids :: id < |cx.a.nodes| && Matches(cx, id, t, possible[k]))
  }

  /**
   A struct expanded from a union or an interface has one variant for each possible type,
   unless it is an alias; other structs have none.
   */
  lemma EnumsAreExhaustive(cx: Context, out: Out, j: nat)
    requires Ready(cx) && Settled(cx, out, j) && SelectionsOf(cx, out.origins[j]).Some?
    ensures var (ids, t) := SelectionsOf(cx, out.origins[j]).value;
            var vs := VariantsOn(out.variants, j);
            && cx.schema.Has(t) && InTable(cx.a, ids)
            && (Lone(cx, ids) ==> vs == [] && FieldsOn(out.fields, j) == [] && |AliasesOn(out.aliases, j)| == 1)
            && (!Lone(cx, ids) && !IsEnum(t) ==> vs == [])
            && (!Lone(cx, ids) && IsEnum(t) ==> OneVariantEach(cx, ids, t, vs))
  {
    SelectionsKnown(cx, out.origins[j]);
    hide Ready, OriginOk, StructName, Matches, VariantName;
    var (ids, t) := SelectionsOf(cx, out.origins[j]).value;
    assert On(out, j) == PartsFor(cx, ids, t, j);
    if !Lone(cx, ids) && IsEnum(t) {
      var vs := Variants(cx, t);
      forall k | 0 <= k < |vs|
        ensures Matching(cx, ids, t, vs[k]) != [] <==>
                exists id | id in ids :: id < |cx.a.nodes| && Matches(cx, id, t, vs[k])
      {
        MatchingFinds(cx, ids, t, vs[k]);
      }
    }
  }

  lemma SelectionsKnown(cx: Context, o: Origin)
    requires Ready(cx) && OriginOk(cx, o) && SelectionsOf(cx, o).Some?
    ensures var (ids, t) := SelectionsOf(cx, o).value;
            InTable(cx.a, ids) && cx.schema.Has(t) && forall s :: PartsOf(cx, o, s) == PartsFor(cx, ids, t, s)
  {
    if o.FromField? {
      NodeAt(cx.schema, cx.a, o.id);
    }
  }

  lemma {:induction false} MatchingFinds(cx: Context, ids: seq<nat>, t: TypeId, v: TypeId)
    requires Ready(cx) && InTable(cx.a, ids)
    ensures Matching(cx, ids, t, v) != [] <==> exists id | id in ids :: id < |cx.a.nodes| && Matches(cx, id, t, v)
  {
    hide Ready, Matches;
    if ids != [] {
      InitInTable(cx.a, ids);
      var init, last := ids[..|ids| - 1], ids[|ids| - 1];
      MatchingFinds(cx, init, t, v);
      assert forall id :: id in ids <==> id in init || id == last;
    }
  }
}
