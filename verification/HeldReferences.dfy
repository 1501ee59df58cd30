/** What a struct holds by value is what its generated fields, variants and aliases name without a box or a list. */
module HeldReferences {
  import opened Wrappers
  import opened TypeQualifiers
  import opened Schemas
  import opened Arenas
  import opened ArenaShape
  import opened ReadBack
  import opened Walks
  import opened UsedTypes
  import opened Expansion
  import opened ExpandedSelections
  import opened VariantContents
  import opened ResponseSizes

  /** Something of the parts takes up the space of what has this name. */
  ghost predicate ByValue(p: Parts, name: string) {
    || (exists f | f in p.fields :: !f.boxed && List !in f.qualifiers && f.fieldType == name)
    || (exists w | w in p.variants :: w.variantType == Some(name))
    || (exists a | a in p.aliases :: !a.boxed && a.name == name)
  }

  lemma ByValueBoth(p: Parts, q: Parts, name: string)
    ensures ByValue(p.And(q), name) <==> ByValue(p, name) || ByValue(q, name)
  {
  }

  lemma NothingByValue(name: string)
    ensures !ByValue(NONE, name)
  {
  }

  predicate IsNamed(cx: Context, q: Origin, name: string)
    requires Ready(cx)
  {
    OriginOk(cx, q) && StructName(cx, q) == name
  }

  /** The field has the type of an enum or a scalar of that name. */
  predicate LeafNamed(cx: Context, id: nat, name: string)
    requires Ready(cx) && id < |cx.a.nodes|
  {
    NodeAt(cx.schema, cx.a, id);
    && cx.a.nodes[id].Field?
    && var fieldType := cx.schema.fields[cx.a.nodes[id].fieldId].fieldType;
       && List !in fieldType.qualifiers
       && match fieldType.id
          case EnumId(e) => cx.typeName(cx.schema.enums[e].name) == name
          case ScalarId(c) => cx.typeName(cx.schema.scalars[c]) == name
          case _ => false
  }

  // ----- Fields -----

  ghost predicate OneNamed(cx: Context, id: nat, t: TypeId, name: string)
    requires Ready(cx) && id < |cx.a.nodes|
  {
    LeafNamed(cx, id, name) || exists q :: IsNamed(cx, q, name) && SelectionHolds(cx, id, t, q)
  }

  lemma FieldNames(cx: Context, id: nat, t: TypeId, s: nat, name: string)
    requires Ready(cx) && id < |cx.a.nodes|
    ensures ByValue(Parts(FieldFor(cx, id, t, s), [], []), name) <==> OneNamed(cx, id, t, name)
  {
    NodeAt(cx.schema, cx.a, id);
    var p := Parts(FieldFor(cx, id, t, s), [], []);
    match cx.a.nodes[id]
    case Field(_, _, _) =>
      FieldTypeKnown(cx, id);
      hide PathName, Walkable, ChainTo, FragmentIsRecursive;
      assert p.fields[0] in p.fields;
      var q := FromField(id);
      assert IsCompositeField(cx, id) ==> StructName(cx, q) == p.fields[0].fieldType;
      assert OneNamed(cx, id, t, name) <==>
             LeafNamed(cx, id, name) || (IsNamed(cx, q, name) && SelectionHolds(cx, id, t, q));
    case FragmentSpread(f) =>
      hide PathName, Walkable, ChainTo, FragmentIsRecursive;
      var q := FromRoot(OfFragment(f));
      assert StructName(cx, q) == cx.a.fragments[f].name;
      assert OneNamed(cx, id, t, name) <==> IsNamed(cx, q, name) && SelectionHolds(cx, id, t, q);
      assert cx.a.fragments[f].on == t ==> p.fields[0] in p.fields;
    case _ =>
  }

  ghost predicate SomeNamed(cx: Context, ids: seq<nat>, t: TypeId, name: string)
    requires Ready(cx) && InTable(cx.a, ids)
  {
    exists id | id in ids :: id < |cx.a.nodes| && OneNamed(cx, id, t, name)
  }

  lemma {:induction false} FieldsName(cx: Context, ids: seq<nat>, t: TypeId, s: nat, name: string)
    requires Ready(cx) && InTable(cx.a, ids)
    ensures ByValue(Parts(AllFields(cx, ids, t, s), [], []), name) <==> SomeNamed(cx, ids, t, name)
  {
    hide Ready, OneNamed, FieldFor, ByValue;
    if ids == [] {
      NothingByValue(name);
    } else {
      InitInTable(cx.a, ids);
      var init, last := ids[..|ids| - 1], ids[|ids| - 1];
      FieldsName(cx, init, t, s, name);
      FieldNames(cx, last, t, s, name);
      var p, q := Parts(AllFields(cx, init, t, s), [], []), Parts(FieldFor(cx, last, t, s), [], []);
      ByValueBoth(p, q, name);
      assert p.And(q) == Parts(AllFields(cx, ids, t, s), [], []);
      assert forall id :: id in ids <==> id in init || id == last;
    }
  }

  // ----- Variants -----

  ghost predicate VariantNamed(cx: Context, ids: seq<nat>, t: TypeId, name: string)
    requires Ready(cx) && InTable(cx.a, ids) && cx.schema.Has(t)
  {
    exists q :: IsNamed(cx, q, name) && VariantHolds(cx, ids, t, q)
  }

  lemma VariantFits(cx: Context, ids: seq<nat>, t: TypeId, v: TypeId, s: nat)
    requires Ready(cx) && InTable(cx.a, ids) && cx.schema.Has(v)
    ensures var ms, w := Matching(cx, ids, t, v), VariantFor(cx, ids, t, v, s);
            && (w.variantType.Some? <==> ms != [])
            && (ms != [] ==>
                  && OriginOk(cx, FromVariant(ms, v))
                  && w.variantType == Some(StructName(cx, FromVariant(ms, v))))
  {
    if Matching(cx, ids, t, v) != [] {
      MatchingFirst(cx, ids, t, v);
      VariantNameIs(cx, Matching(cx, ids, t, v), v);
    }
  }

  lemma VariantByValue(vs: seq<ExpandedVariant>, name: string)
    ensures ByValue(Parts([], vs, []), name) <==> exists k | 0 <= k < |vs| :: vs[k].variantType == Some(name)
  {
    if k :| 0 <= k < |vs| && vs[k].variantType == Some(name) {
      assert vs[k] in Parts([], vs, []).variants;
    }
  }

  /** Variant number `k` has data of that name. */
  predicate VariantAt(cx: Context, ids: seq<nat>, t: TypeId, k: nat, name: string)
    requires Ready(cx) && InTable(cx.a, ids) && cx.schema.Has(t) && k < |Variants(cx, t)|
  {
    var v := Variants(cx, t)[k];
    Matching(cx, ids, t, v) != [] && IsNamed(cx, FromVariant(Matching(cx, ids, t, v), v), name)
  }

  lemma VariantNamedAt(cx: Context, ids: seq<nat>, t: TypeId, name: string)
    requires Ready(cx) && InTable(cx.a, ids) && cx.schema.Has(t)
    ensures VariantNamed(cx, ids, t, name) <==> exists k | 0 <= k < |Variants(cx, t)| :: VariantAt(cx, ids, t, k, name)
  {
    hide Walkable, Linked, NodesInRange, SelectsNoInputs, RootsInRange, Matching, Variants, IsNamed;
    if k :| 0 <= k < |Variants(cx, t)| && VariantAt(cx, ids, t, k, name) {
      var v := Variants(cx, t)[k];
      assert VariantHolds(cx, ids, t, FromVariant(Matching(cx, ids, t, v), v));
    }
    if q :| IsNamed(cx, q, name) && VariantHolds(cx, ids, t, q) {
      var k :| && 0 <= k < |Variants(cx, t)| && Matching(cx, ids, t, Variants(cx, t)[k]) != []
               && q == FromVariant(Matching(cx, ids, t, Variants(cx, t)[k]), Variants(cx, t)[k]);
      assert VariantAt(cx, ids, t, k, name);
    }
  }

  lemma VariantsName(cx: Context, ids: seq<nat>, t: TypeId, s: nat, name: string)
    requires Ready(cx) && InTable(cx.a, ids) && cx.schema.Has(t)
    ensures ByValue(Parts([], AllVariants(cx, ids, t, Variants(cx, t), s), []), name) <==>
            VariantNamed(cx, ids, t, name)
  {
    hide Walkable, Linked, NodesInRange, SelectsNoInputs, RootsInRange, Matching, Variants, VariantFor, StructName,
         OriginOk, ByValue, VariantNamed;
    var vs := Variants(cx, t);
    VariantNamedAt(cx, ids, t, name);
    VariantByValue(AllVariants(cx, ids, t, vs, s), name);
    forall k | 0 <= k < |vs|
      ensures VariantFor(cx, ids, t, vs[k], s).variantType == Some(name) <==> VariantAt(cx, ids, t, k, name)
    {
      VariantFits(cx, ids, t, vs[k], s);
    }
  }

  // ----- Sets of selections -----

  ghost predicate SetNamed(cx: Context, ids: seq<nat>, t: TypeId, name: string)
    requires Ready(cx) && InTable(cx.a, ids) && cx.schema.Has(t)
  {
    || (exists q :: IsNamed(cx, q, name) && SetHolds(cx, ids, t, q))
    || (!Lone(cx, ids) && exists id | id in ids :: id < |cx.a.nodes| && LeafNamed(cx, id, name))
  }

  lemma SetNames(cx: Context, ids: seq<nat>, t: TypeId, s: nat, name: string)
    requires Ready(cx) && InTable(cx.a, ids) && cx.schema.Has(t)
    ensures ByValue(PartsFor(cx, ids, t, s), name) <==> SetNamed(cx, ids, t, name)
  {
    if Lone(cx, ids) {
      LoneNames(cx, ids, t, s, name);
    } else {
      hide Ready, ByValue, AllFields, AllVariants, IsNamed, LeafNamed, SelectionHolds, VariantHolds, Variants;
      var p, q := Parts(AllFields(cx, ids, t, s), [], []), Parts([], AllVariants(cx, ids, t, Variants(cx, t), s), []);
      assert PartsFor(cx, ids, t, s) == p.And(q);
      ByValueBoth(p, q, name);
      FieldsName(cx, ids, t, s, name);
      VariantsName(cx, ids, t, s, name);
      NamedTogether(cx, ids, t, name);
    }
  }

  lemma NamedTogether(cx: Context, ids: seq<nat>, t: TypeId, name: string)
    requires Ready(cx) && InTable(cx.a, ids) && cx.schema.Has(t) && !Lone(cx, ids)
    ensures SetNamed(cx, ids, t, name) <==> SomeNamed(cx, ids, t, name) || VariantNamed(cx, ids, t, name)
  {
    hide Ready, IsNamed, LeafNamed, SelectionHolds, VariantHolds;
    if id :| id in ids && id < |cx.a.nodes| && OneNamed(cx, id, t, name) && !LeafNamed(cx, id, name) {
      var q :| IsNamed(cx, q, name) && SelectionHolds(cx, id, t, q);
      var k: nat :| k < |ids| && ids[k] == id;
      assert AnyHolds(cx, ids, t, q);
      assert SetHolds(cx, ids, t, q);
    }
    if q :| IsNamed(cx, q, name) && SetHolds(cx, ids, t, q) && AnyHolds(cx, ids, t, q) {
      var k :| 0 <= k < |ids| && ids[k] in ids && SelectionHolds(cx, ids[k], t, q);
      assert OneNamed(cx, ids[k], t, name);
    }
  }

  lemma LoneNames(cx: Context, ids: seq<nat>, t: TypeId, s: nat, name: string)
    requires Ready(cx) && InTable(cx.a, ids) && cx.schema.Has(t) && Lone(cx, ids)
    ensures ByValue(PartsFor(cx, ids, t, s), name) <==> SetNamed(cx, ids, t, name)
  {
    assert ids[0] in ids;
    NodeAt(cx.schema, cx.a, ids[0]);
    hide Walkable, ChainTo, FragmentIsRecursive, PathName;
    var f := cx.a.nodes[ids[0]].fragmentId;
    var p := PartsFor(cx, ids, t, s);
    assert p.aliases[0] in p.aliases;
    var q := FromRoot(OfFragment(f));
    assert StructName(cx, q) == cx.a.fragments[f].name;
    assert SetNamed(cx, ids, t, name) <==> IsNamed(cx, q, name) && SetHolds(cx, ids, t, q);
  }

  // ----- Variant structs -----

  ghost predicate OneGiven(cx: Context, m: nat, first: nat, v: TypeId, name: string)
    requires Ready(cx) && m < |cx.a.nodes| && first < |cx.a.nodes| && cx.schema.Has(v)
  {
    NodeAt(cx.schema, cx.a, first);
    if cx.a.nodes[m].InlineFragment? then SetNamed(cx, cx.a.nodes[first].Subselection(), v, name)
    else exists q :: IsNamed(cx, q, name) && OneHolds(cx, m, first, v, q)
  }

  lemma GivenNames(cx: Context, m: nat, first: nat, v: TypeId, s: nat, name: string)
    requires Ready(cx) && m < |cx.a.nodes| && first < |cx.a.nodes| && cx.schema.Has(v)
    ensures ByValue(Given(cx, m, first, v, s), name) <==> OneGiven(cx, m, first, v, name)
  {
    NodeAt(cx.schema, cx.a, first);
    NodeAt(cx.schema, cx.a, m);
    match cx.a.nodes[m]
    case InlineFragment(_, _) =>
      hide SetNamed, PartsFor, ByValue, Walkable;
      SetNames(cx, cx.a.nodes[first].Subselection(), v, s, name);
    case FragmentSpread(f) =>
      hide Walkable, ChainTo, FragmentIsRecursive, PathName;
      var q := FromRoot(OfFragment(f));
      var p := Given(cx, m, first, v, s);
      assert p.fields[0] in p.fields;
      assert StructName(cx, q) == cx.a.fragments[f].name;
      assert OneGiven(cx, m, first, v, name) <==> IsNamed(cx, q, name) && OneHolds(cx, m, first, v, q);
    case _ =>
      hide PartsFor;
  }

  ghost predicate EachGiven(cx: Context, ms: seq<nat>, first: nat, v: TypeId, name: string)
    requires Ready(cx) && AllNodes(cx.a, ms) && first < |cx.a.nodes| && cx.schema.Has(v)
  {
    exists k | 0 <= k < |ms| :: OneGiven(cx, ms[k], first, v, name)
  }

  lemma OneMoreGiven(cx: Context, ms: seq<nat>, first: nat, v: TypeId, name: string)
    requires Ready(cx) && AllNodes(cx.a, ms) && first < |cx.a.nodes| && cx.schema.Has(v) && ms != []
    ensures EachGiven(cx, ms, first, v, name) <==>
            EachGiven(cx, ms[..|ms| - 1], first, v, name) || OneGiven(cx, ms[|ms| - 1], first, v, name)
  {
    hide Ready, OneGiven;
    assert forall k | 0 <= k < |ms| - 1 :: ms[..|ms| - 1][k] == ms[k];
  }

  lemma {:induction false} EachNames(cx: Context, ms: seq<nat>, first: nat, v: TypeId, s: nat, name: string)
    requires Ready(cx) && AllNodes(cx.a, ms) && first < |cx.a.nodes| && cx.schema.Has(v)
    ensures ByValue(PartsOfEach(cx, ms, first, v, s), name) <==> EachGiven(cx, ms, first, v, name)
  {
    if ms == [] {
      assert PartsOfEach(cx, ms, first, v, s) == NONE;
    } else {
      hide Ready, OneGiven, EachGiven, ByValue, Given, PartsOfEach;
      var init, last := ms[..|ms| - 1], ms[|ms| - 1];
      EachNames(cx, init, first, v, s, name);
      GivenIsPushed(cx, ms, first, v, s);
      GivenNames(cx, last, first, v, s, name);
      ByValueBoth(PartsOfEach(cx, init, first, v, s), Given(cx, last, first, v, s), name);
      OneMoreGiven(cx, ms, first, v, name);
    }
  }

  // ----- Every struct -----

  /** A leaf is among what the struct was expanded from. */
  ghost predicate HasLeaf(cx: Context, o: Origin, name: string)
    requires Ready(cx) && OriginOk(cx, o)
  {
    match o
    case FromVariant(ms, v) =>
      NodeAt(cx.schema, cx.a, ms[0]);
      HasInline(cx, ms) && LeafAmong(cx, cx.a.nodes[ms[0]].Subselection(), name)
    case _ =>
      SelectionsKnown(cx, o);
      LeafAmong(cx, SelectionsOf(cx, o).value.0, name)
  }

  ghost predicate LeafAmong(cx: Context, ids: seq<nat>, name: string)
    requires Ready(cx) && InTable(cx.a, ids)
  {
    !Lone(cx, ids) && exists id | id in ids :: id < |cx.a.nodes| && LeafNamed(cx, id, name)
  }

  ghost predicate HoldsNamed(cx: Context, o: Origin, name: string)
    requires Ready(cx) && OriginOk(cx, o)
  {
    exists q :: IsNamed(cx, q, name) && Holds(cx, o, q)
  }

  /** What is rendered of a variant's struct, by what it was given. */
  ghost predicate VariantGiven(cx: Context, ms: seq<nat>, v: TypeId, name: string)
    requires Ready(cx) && OriginOk(cx, FromVariant(ms, v))
  {
    NodeAt(cx.schema, cx.a, ms[0]);
    if AliasBelow(cx, ms, ms[0]) then SetNamed(cx, cx.a.nodes[ms[0]].Subselection(), v, name)
    else EachGiven(cx, ms, ms[0], v, name)
  }

  lemma VariantHoldsNamed(cx: Context, ms: seq<nat>, v: TypeId, name: string)
    requires Ready(cx) && OriginOk(cx, FromVariant(ms, v))
    ensures VariantGiven(cx, ms, v, name) <==>
            HoldsNamed(cx, FromVariant(ms, v), name) || HasLeaf(cx, FromVariant(ms, v), name)
  {
    NodeAt(cx.schema, cx.a, ms[0]);
    hide Ready, SetHolds, IsNamed, LeafNamed, Lone, OriginOk;
    var o, below := FromVariant(ms, v), cx.a.nodes[ms[0]].Subselection();
    if AliasBelow(cx, ms, ms[0]) {
      assert forall q :: Holds(cx, o, q) <==> SetHolds(cx, below, v, q);
    } else {
      if k :| 0 <= k < |ms| && OneGiven(cx, ms[k], ms[0], v, name) {
        if cx.a.nodes[ms[k]].InlineFragment? {
          if q :| IsNamed(cx, q, name) && SetHolds(cx, below, v, q) {
            assert OneHolds(cx, ms[k], ms[0], v, q);
            assert Holds(cx, o, q);
          }
        } else {
          var q :| IsNamed(cx, q, name) && OneHolds(cx, ms[k], ms[0], v, q);
          assert Holds(cx, o, q);
        }
      }
      if q :| IsNamed(cx, q, name) && Holds(cx, o, q) {
        var k :| 0 <= k < |ms| && OneHolds(cx, ms[k], ms[0], v, q);
        assert OneGiven(cx, ms[k], ms[0], v, name);
      }
      if HasLeaf(cx, o, name) {
        var k :| 0 <= k < |ms| && cx.a.nodes[ms[k]].InlineFragment?;
        assert OneGiven(cx, ms[k], ms[0], v, name);
      }
    }
  }

  /**
   What takes up space in a struct as it is rendered, by name: the structs that it holds, and
   the leaves among its fields.
   */
  lemma HeldIsReferredTo(cx: Context, o: Origin, s: nat, name: string)
    requires Ready(cx) && OriginOk(cx, o)
    ensures ByValue(Rendered(PartsOf(cx, o, s)), name) <==> HoldsNamed(cx, o, name) || HasLeaf(cx, o, name)
  {
    if o.FromVariant? {
      VariantNames(cx, o.selections, o.on, s, name);
      VariantHoldsNamed(cx, o.selections, o.on, name);
    } else {
      SelectionsKnown(cx, o);
      var (ids, t) := SelectionsOf(cx, o).value;
      SetIsRendered(cx, ids, t, s);
      SetNames(cx, ids, t, s, name);
      hide SetHolds, LeafNamed, IsNamed, PartsFor, ByValue, Rendered;
      assert forall q :: Holds(cx, o, q) <==> SetHolds(cx, ids, t, q);
    }
  }

  lemma SetIsRendered(cx: Context, ids: seq<nat>, t: TypeId, s: nat)
    requires Ready(cx) && InTable(cx.a, ids) && cx.schema.Has(t)
    ensures Rendered(PartsFor(cx, ids, t, s)) == PartsFor(cx, ids, t, s)
    ensures Lone(cx, ids) ==> PartsFor(cx, ids, t, s) == Parts([], [], PartsFor(cx, ids, t, s).aliases)
  {
    hide Ready, AllFields, AllVariants, Variants;
    if Lone(cx, ids) {
      LoneSpread(cx, ids, t, s);
    }
  }

  lemma VariantNames(cx: Context, ms: seq<nat>, v: TypeId, s: nat, name: string)
    requires Ready(cx) && OriginOk(cx, FromVariant(ms, v))
    ensures ByValue(Rendered(PartsOf(cx, FromVariant(ms, v), s)), name) <==> VariantGiven(cx, ms, v, name)
  {
    VariantGets(cx, ms, v, s);
    NodeAt(cx.schema, cx.a, ms[0]);
    if |ms| == 1 && cx.a.nodes[ms[0]].FragmentSpread? {
      LoneVariantNames(cx, ms, v, s, name);
    } else {
      hide Ready, PartsFor, PartsOfEach, VariantParts, EachGiven, ByValue, Lone, SetNamed, HasInline, OriginOk;
      AliasesAre(cx, ms, ms[0], v, s);
      if AliasBelow(cx, ms, ms[0]) {
        var below := cx.a.nodes[ms[0]].Subselection();
        SetIsRendered(cx, below, v, s);
        SetNames(cx, below, v, s, name);
        assert Rendered(PartsOfEach(cx, ms, ms[0], v, s)) == PartsFor(cx, below, v, s);
      } else {
        EachNames(cx, ms, ms[0], v, s, name);
      }
    }
  }

  lemma LoneVariantNames(cx: Context, ms: seq<nat>, v: TypeId, s: nat, name: string)
    requires Ready(cx) && OriginOk(cx, FromVariant(ms, v)) && |ms| == 1 && cx.a.nodes[ms[0]].FragmentSpread?
    ensures ByValue(Rendered(PartsOf(cx, FromVariant(ms, v), s)), name) <==> VariantGiven(cx, ms, v, name)
  {
    VariantGets(cx, ms, v, s);
    NodeAt(cx.schema, cx.a, ms[0]);
    var f := cx.a.nodes[ms[0]].fragmentId;
    var p := PartsOf(cx, FromVariant(ms, v), s);
    hide Walkable, ChainTo, FragmentIsRecursive, PathName, PartsOf, VariantParts;
    var q := FromRoot(OfFragment(f));
    assert p.aliases[0] in p.aliases;
    assert StructName(cx, q) == cx.a.fragments[f].name;
    assert OneGiven(cx, ms[0], ms[0], v, name) <==> IsNamed(cx, q, name) && OneHolds(cx, ms[0], ms[0], v, q);
  }
}
