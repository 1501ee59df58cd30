/** The structs of an expansion come only from selections that the walk for used types has accounted for. */
module StructCoverage {
  import opened Schemas
  import opened Arenas
  import opened ArenaShape
  import opened ReadBack
  import opened UsedTypes
  import opened Expansion
  import opened ExpandedSelections

  ghost predicate EachCovered(cx: Context, ms: seq<nat>, u: Used)
    requires Ready(cx)
  {
    forall m | m in ms :: m < |cx.a.nodes| && Covered(cx.schema, cx.a, m, u)
  }

  /** The selections a struct was made for are accounted for. */
  ghost predicate OriginCovered(cx: Context, o: Origin, u: Used)
    requires Ready(cx)
  {
    && OriginOk(cx, o)
    && match o
       case FromRoot(root) =>
         var ids := RootSelections(cx, root).0;
         InTable(cx.a, ids) && CoveredAll(cx.schema, cx.a, ids, u)
       case FromField(id) => Covered(cx.schema, cx.a, id, u)
       case FromVariant(ms, _) => EachCovered(cx, ms, u)
  }

  ghost predicate OriginsCovered(cx: Context, os: seq<Origin>, u: Used)
    requires Ready(cx)
  {
    forall o | o in os :: OriginCovered(cx, o, u)
  }

  lemma {:induction false} CoveredEach(cx: Context, ids: seq<nat>, u: Used)
    requires Ready(cx) && InTable(cx.a, ids) && CoveredAll(cx.schema, cx.a, ids, u)
    ensures EachCovered(cx, ids, u)
  {
    hide Ready, Covered;
    if ids != [] {
      var init, last := ids[..|ids| - 1], ids[|ids| - 1];
      InitInTable(cx.a, ids);
      CoveredLast(cx, ids, u);
      CoveredEach(cx, init, u);
      assert forall m | m in ids :: m in init || m == last;
    }
  }

  lemma CoveredLast(cx: Context, ids: seq<nat>, u: Used)
    requires Ready(cx) && InTable(cx.a, ids) && CoveredAll(cx.schema, cx.a, ids, u) && ids != []
    ensures var init, last := ids[..|ids| - 1], ids[|ids| - 1];
            && InTable(cx.a, init) && CoveredAll(cx.schema, cx.a, init, u)
            && last < |cx.a.nodes| && Covered(cx.schema, cx.a, last, u)
  {
    InitInTable(cx.a, ids);
  }

  /** What is under an accounted selection is accounted for. */
  lemma CoveredBelow(cx: Context, id: nat, u: Used)
    requires Ready(cx) && id < |cx.a.nodes| && Covered(cx.schema, cx.a, id, u)
    ensures var ids := cx.a.nodes[id].Subselection();
            InTable(cx.a, ids) && id < First(ids, |cx.a.nodes|) && CoveredAll(cx.schema, cx.a, ids, u)
  {
    NodeAt(cx.schema, cx.a, id);
  }

  lemma BothCovered(cx: Context, os: seq<Origin>, more: seq<Origin>, u: Used)
    requires Ready(cx) && OriginsCovered(cx, os, u) && OriginsCovered(cx, more, u)
    ensures OriginsCovered(cx, os + more, u)
  {
    hide Ready, OriginCovered;
  }

  lemma {:induction false} StructsCovered(cx: Context, ids: seq<nat>, t: TypeId, u: Used)
    requires Ready(cx) && InTable(cx.a, ids) && cx.schema.Has(t) && CoveredAll(cx.schema, cx.a, ids, u)
    ensures OriginsCovered(cx, Structs(cx, ids, t), u)
    decreases |cx.a.nodes| - First(ids, |cx.a.nodes|), 3, 0
  {
    hide OriginCovered;
    if !Lone(cx, ids) {
      hide Ready, OriginsCovered, VariantStructs, FieldStructs, Variants, CoveredAll;
      VariantStructsCovered(cx, ids, t, Variants(cx, t), u);
      FieldStructsCovered(cx, ids, u);
      BothCovered(cx, VariantStructs(cx, ids, t, Variants(cx, t)), FieldStructs(cx, ids), u);
    }
  }

  lemma {:induction false} VariantStructsCovered(cx: Context, ids: seq<nat>, t: TypeId, vs: seq<TypeId>, u: Used)
    requires Ready(cx) && InTable(cx.a, ids) && AllHave(cx.schema, vs) && CoveredAll(cx.schema, cx.a, ids, u)
    ensures OriginsCovered(cx, VariantStructs(cx, ids, t, vs), u)
    decreases |cx.a.nodes| - First(ids, |cx.a.nodes|), 2, |vs|
  {
    if vs != [] {
      hide Ready, OriginsCovered, OneVariantStructs, CoveredAll;
      var init, v := vs[..|vs| - 1], vs[|vs| - 1];
      VariantStructsCovered(cx, ids, t, init, u);
      OneVariantCovered(cx, ids, t, v, u);
      BothCovered(cx, VariantStructs(cx, ids, t, init), OneVariantStructs(cx, ids, t, v), u);
    }
  }

  lemma {:induction false} OneVariantCovered(cx: Context, ids: seq<nat>, t: TypeId, v: TypeId, u: Used)
    requires Ready(cx) && InTable(cx.a, ids) && cx.schema.Has(v) && CoveredAll(cx.schema, cx.a, ids, u)
    ensures OriginsCovered(cx, OneVariantStructs(cx, ids, t, v), u)
    decreases |cx.a.nodes| - First(ids, |cx.a.nodes|), 2, 0
  {
    hide Ready, OriginOk, Matching, InnerStructs, OneVariantStructs, CoveredAll, Covered;
    OneVariantMakes(cx, ids, t, v);
    var ms := Matching(cx, ids, t, v);
    if ms != [] {
      MatchingFirst(cx, ids, t, v);
      CoveredEach(cx, ids, u);
      assert ms[0] in ms && EachCovered(cx, ms, u);
      assert OriginCovered(cx, FromVariant(ms, v), u);
      if |ms| != 1 || !cx.a.nodes[ms[0]].FragmentSpread? {
        InnerStructsCovered(cx, ms, ms[0], v, u);
        BothCovered(cx, [FromVariant(ms, v)], InnerStructs(cx, ms, ms[0], v), u);
      }
    }
  }

  lemma {:induction false} InnerStructsCovered(cx: Context, ms: seq<nat>, first: nat, v: TypeId, u: Used)
    requires Ready(cx) && AllNodes(cx.a, ms) && first < |cx.a.nodes| && cx.schema.Has(v)
    requires Covered(cx.schema, cx.a, first, u)
    ensures OriginsCovered(cx, InnerStructs(cx, ms, first, v), u)
    decreases |cx.a.nodes| - first, 1, |ms|
  {
    if ms != [] {
      CoveredBelow(cx, first, u);
      hide Ready, OriginsCovered, Structs, CoveredAll, Covered;
      var init, below := ms[..|ms| - 1], cx.a.nodes[first].Subselection();
      InnerStructsCovered(cx, init, first, v, u);
      if cx.a.nodes[ms[|ms| - 1]].InlineFragment? {
        StructsCovered(cx, below, v, u);
        BothCovered(cx, InnerStructs(cx, init, first, v), Structs(cx, below, v), u);
      } else {
        assert InnerStructs(cx, init, first, v) + [] == InnerStructs(cx, init, first, v);
      }
    }
  }

  lemma {:induction false} FieldStructsCovered(cx: Context, ids: seq<nat>, u: Used)
    requires Ready(cx) && InTable(cx.a, ids) && CoveredAll(cx.schema, cx.a, ids, u)
    ensures OriginsCovered(cx, FieldStructs(cx, ids), u)
    decreases |cx.a.nodes| - First(ids, |cx.a.nodes|), 1, |ids|
  {
    if ids != [] {
      InitInTable(cx.a, ids);
      CoveredLast(cx, ids, u);
      hide Ready, OriginsCovered, OneFieldStructs, CoveredAll, Covered;
      FieldStructsCovered(cx, ids[..|ids| - 1], u);
      OneFieldCovered(cx, ids[|ids| - 1], u);
      BothCovered(cx, FieldStructs(cx, ids[..|ids| - 1]), OneFieldStructs(cx, ids[|ids| - 1]), u);
    }
  }

  lemma {:induction false} OneFieldCovered(cx: Context, id: nat, u: Used)
    requires Ready(cx) && id < |cx.a.nodes| && Covered(cx.schema, cx.a, id, u)
    ensures OriginsCovered(cx, OneFieldStructs(cx, id), u)
    decreases |cx.a.nodes| - id, 0, 0
  {
    if IsCompositeField(cx, id) {
      NodeAt(cx.schema, cx.a, id);
      CoveredBelow(cx, id, u);
      hide Structs, CoveredAll, Covered;
      var t := cx.schema.fields[cx.a.nodes[id].fieldId].fieldType.id;
      StructsCovered(cx, cx.a.nodes[id].selectionSet, t, u);
      assert OriginCovered(cx, FromField(id), u);
    }
  }

  /** The structs of a whole expansion, with the root's own. */
  lemma RootStructsCovered(cx: Context, root: Parent, u: Used)
    requires Ready(cx) && IsRoot(root) && HasParent(cx.a, root)
    requires var ids := RootSelections(cx, root).0;
             InTable(cx.a, ids) && CoveredAll(cx.schema, cx.a, ids, u)
    ensures var (ids, t) := RootSelections(cx, root);
            InTable(cx.a, ids) && cx.schema.Has(t) && OriginsCovered(cx, [FromRoot(root)] + Structs(cx, ids, t), u)
  {
    RootKnown(cx, root);
    hide Ready, Structs, OriginOk, CoveredAll;
    var (ids, t) := RootSelections(cx, root);
    StructsCovered(cx, ids, t, u);
    assert OriginCovered(cx, FromRoot(root), u);
  }
}
