/** What generated structs and enums refer to is generated too. */
module GeneratedNames {
  import opened Schemas
  import opened Arenas
  import opened ArenaShape
  import opened ReadBack
  import opened Walks
  import opened UsedTypes
  import opened Expansion
  import opened ExpandedSelections
  import opened ResolvedVariables
  import opened StructCoverage

  // ----- The structs made for what a struct was made for -----

  function Below(cx: Context, o: Origin): seq<Origin>
    requires Ready(cx) && OriginOk(cx, o)
  {
    match o
    case FromRoot(root) =>
      RootKnown(cx, root);
      var (ids, t) := RootSelections(cx, root);
      Structs(cx, ids, t)
    case FromField(id) =>
      NodeAt(cx.schema, cx.a, id);
      Structs(cx, cx.a.nodes[id].selectionSet, cx.schema.fields[cx.a.nodes[id].fieldId].fieldType.id)
    case FromVariant(ms, v) => VariantStruct(cx, ms, v)[1..]
  }

  /** With a struct, the list has all structs below it. */
  ghost predicate Closed(cx: Context, os: seq<Origin>)
    requires Ready(cx)
  {
    forall o | o in os :: OriginOk(cx, o) && forall q | q in Below(cx, o) :: q in os
  }

  lemma ClosedBoth(cx: Context, os: seq<Origin>, more: seq<Origin>)
    requires Ready(cx) && Closed(cx, os) && Closed(cx, more)
    ensures Closed(cx, os + more)
  {
    hide Ready, OriginOk, Below;
  }

  lemma ClosedUnder(cx: Context, o: Origin, os: seq<Origin>)
    requires Ready(cx) && OriginOk(cx, o) && Closed(cx, os) && Below(cx, o) == os
    ensures Closed(cx, [o] + os)
  {
    hide Ready, OriginOk, Below;
  }

  lemma {:induction false} StructsClosed(cx: Context, ids: seq<nat>, t: TypeId)
    requires Ready(cx) && InTable(cx.a, ids) && cx.schema.Has(t)
    ensures Closed(cx, Structs(cx, ids, t))
    decreases |cx.a.nodes| - First(ids, |cx.a.nodes|), 3, 0
  {
    if !Lone(cx, ids) {
      hide Ready, OriginOk, Below, Closed, VariantStructs, FieldStructs, Variants;
      VariantStructsClosed(cx, ids, t, Variants(cx, t));
      FieldStructsClosed(cx, ids);
      ClosedBoth(cx, VariantStructs(cx, ids, t, Variants(cx, t)), FieldStructs(cx, ids));
    }
  }

  lemma {:induction false} VariantStructsClosed(cx: Context, ids: seq<nat>, t: TypeId, vs: seq<TypeId>)
    requires Ready(cx) && InTable(cx.a, ids) && AllHave(cx.schema, vs)
    ensures Closed(cx, VariantStructs(cx, ids, t, vs))
    decreases |cx.a.nodes| - First(ids, |cx.a.nodes|), 2, |vs|
  {
    if vs != [] {
      hide Ready, OriginOk, Below, Closed, OneVariantStructs;
      var init, v := vs[..|vs| - 1], vs[|vs| - 1];
      VariantStructsClosed(cx, ids, t, init);
      OneVariantClosed(cx, ids, t, v);
      ClosedBoth(cx, VariantStructs(cx, ids, t, init), OneVariantStructs(cx, ids, t, v));
    }
  }

  lemma {:induction false} OneVariantClosed(cx: Context, ids: seq<nat>, t: TypeId, v: TypeId)
    requires Ready(cx) && InTable(cx.a, ids) && cx.schema.Has(v)
    ensures Closed(cx, OneVariantStructs(cx, ids, t, v))
    decreases |cx.a.nodes| - First(ids, |cx.a.nodes|), 2, 0
  {
    hide Ready, OriginOk, Closed, Matching, InnerStructs, OneVariantStructs;
    OneVariantMakes(cx, ids, t, v);
    var ms := Matching(cx, ids, t, v);
    if ms == [] {
      NothingClosed(cx);
    } else {
      MatchingFirst(cx, ids, t, v);
      var below := VariantStruct(cx, ms, v)[1..];
      if |ms| == 1 && cx.a.nodes[ms[0]].FragmentSpread? {
        NothingClosed(cx);
      } else {
        InnerStructsClosed(cx, ms, ms[0], v);
      }
      ClosedUnder(cx, FromVariant(ms, v), below);
      assert VariantStruct(cx, ms, v) == [FromVariant(ms, v)] + below;
    }
  }

  lemma NothingClosed(cx: Context)
    requires Ready(cx)
    ensures Closed(cx, [])
  {
  }

  lemma {:induction false} InnerStructsClosed(cx: Context, ms: seq<nat>, first: nat, v: TypeId)
    requires Ready(cx) && AllNodes(cx.a, ms) && first < |cx.a.nodes| && cx.schema.Has(v)
    ensures Closed(cx, InnerStructs(cx, ms, first, v))
    decreases |cx.a.nodes| - first, 1, |ms|
  {
    if ms == [] {
      NothingClosed(cx);
    } else {
      hide OriginOk, Below, Closed, Structs;
      NodeAt(cx.schema, cx.a, first);
      hide Ready;
      var init, below := ms[..|ms| - 1], cx.a.nodes[first].Subselection();
      InnerStructsClosed(cx, init, first, v);
      if cx.a.nodes[ms[|ms| - 1]].InlineFragment? {
        StructsClosed(cx, below, v);
        ClosedBoth(cx, InnerStructs(cx, init, first, v), Structs(cx, below, v));
      } else {
        assert InnerStructs(cx, init, first, v) + [] == InnerStructs(cx, init, first, v);
      }
    }
  }

  lemma {:induction false} FieldStructsClosed(cx: Context, ids: seq<nat>)
    requires Ready(cx) && InTable(cx.a, ids)
    ensures Closed(cx, FieldStructs(cx, ids))
    decreases |cx.a.nodes| - First(ids, |cx.a.nodes|), 1, |ids|
  {
    if ids == [] {
      NothingClosed(cx);
    } else {
      hide Ready, OriginOk, Below, Closed, OneFieldStructs;
      InitInTable(cx.a, ids);
      FieldStructsClosed(cx, ids[..|ids| - 1]);
      OneFieldClosed(cx, ids[|ids| - 1]);
      ClosedBoth(cx, FieldStructs(cx, ids[..|ids| - 1]), OneFieldStructs(cx, ids[|ids| - 1]));
    }
  }

  lemma {:induction false} OneFieldClosed(cx: Context, id: nat)
    requires Ready(cx) && id < |cx.a.nodes|
    ensures Closed(cx, OneFieldStructs(cx, id))
    decreases |cx.a.nodes| - id, 0, 0
  {
    if IsCompositeField(cx, id) {
      NodeAt(cx.schema, cx.a, id);
      hide Closed, Structs;
      var t := cx.schema.fields[cx.a.nodes[id].fieldId].fieldType.id;
      StructsClosed(cx, cx.a.nodes[id].selectionSet, t);
      ClosedUnder(cx, FromField(id), Structs(cx, cx.a.nodes[id].selectionSet, t));
    } else {
      NothingClosed(cx);
    }
  }

  /** The structs of a whole expansion. */
  lemma AllStructsClosed(cx: Context, root: Parent)
    requires Ready(cx) && IsRoot(root) && HasParent(cx.a, root)
    ensures OriginOk(cx, FromRoot(root)) && Closed(cx, [FromRoot(root)] + Below(cx, FromRoot(root)))
  {
    RootKnown(cx, root);
    hide Ready, OriginOk, Closed, Structs;
    var (ids, t) := RootSelections(cx, root);
    StructsClosed(cx, ids, t);
    ClosedUnder(cx, FromRoot(root), Below(cx, FromRoot(root)));
  }

  // ----- What fields and variants refer to -----

  /** A list of structs names the struct that a composite field refers to. */
  lemma {:induction false} FieldIsMade(cx: Context, ids: seq<nat>, id: nat)
    requires Ready(cx) && InTable(cx.a, ids) && id in ids && id < |cx.a.nodes| && IsCompositeField(cx, id)
    ensures FromField(id) in FieldStructs(cx, ids)
    decreases |ids|
  {
    hide Ready, Structs;
    InitInTable(cx.a, ids);
    if id != ids[|ids| - 1] {
      assert id in ids[..|ids| - 1];
      FieldIsMade(cx, ids[..|ids| - 1], id);
    } else {
      CompositeMakes(cx, id);
    }
  }

  lemma CompositeMakes(cx: Context, id: nat)
    requires Ready(cx) && id < |cx.a.nodes| && IsCompositeField(cx, id)
    ensures OriginOk(cx, FromField(id)) && FromField(id) in OneFieldStructs(cx, id)
    ensures forall t, s ::
              |FieldFor(cx, id, t, s)| == 1 && FieldFor(cx, id, t, s)[0].fieldType == StructName(cx, FromField(id))
  {
    hide Structs;
    NodeAt(cx.schema, cx.a, id);
  }

  lemma {:induction false} VariantIsMade(cx: Context, ids: seq<nat>, t: TypeId, vs: seq<TypeId>, k: nat)
    requires Ready(cx) && InTable(cx.a, ids) && AllHave(cx.schema, vs) && k < |vs|
    requires Matching(cx, ids, t, vs[k]) != []
    ensures FromVariant(Matching(cx, ids, t, vs[k]), vs[k]) in VariantStructs(cx, ids, t, vs)
    decreases |vs|
  {
    hide Ready, OneVariantStructs, Matching;
    if k < |vs| - 1 {
      VariantIsMade(cx, ids, t, vs[..|vs| - 1], k);
    } else {
      OneVariantMakes(cx, ids, t, vs[k]);
    }
  }

  /** Some struct of the list has the name. */
  ghost predicate Names(cx: Context, os: seq<Origin>, name: string)
    requires Ready(cx)
  {
    exists o | o in os :: OriginOk(cx, o) && StructName(cx, o) == name
  }

  /** The name of an enum or a scalar that is used. */
  ghost predicate UsedLeaf(cx: Context, u: Used, name: string) {
    || (exists e: nat | e < |cx.schema.enums| && EnumId(e) in u.types :: name == cx.typeName(cx.schema.enums[e].name))
    || (exists c: nat | c < |cx.schema.scalars| && ScalarId(c) in u.types :: name == cx.typeName(cx.schema.scalars[c]))
  }

  /** The name of a fragment that is used. */
  ghost predicate UsedFragment(cx: Context, u: Used, name: string) {
    exists f: nat | f < |cx.a.fragments| && f in u.fragments :: name == cx.a.fragments[f].name
  }

  /**
   Flattened fields and aliases refer to used fragments, other fields to used enums and
   scalars or to structs of the list, and variants to structs of the list.
   */
  ghost predicate Refers(cx: Context, p: Parts, os: seq<Origin>, u: Used)
    requires Ready(cx)
  {
    && (forall f | f in p.fields ::
          if f.flatten then UsedFragment(cx, u, f.fieldType)
          else UsedLeaf(cx, u, f.fieldType) || Names(cx, os, f.fieldType))
    && (forall w | w in p.variants :: w.variantType.Some? ==> Names(cx, os, w.variantType.value))
    && (forall a | a in p.aliases :: UsedFragment(cx, u, a.name))
  }

  lemma RefersBoth(cx: Context, p: Parts, q: Parts, os: seq<Origin>, u: Used)
    requires Ready(cx) && Refers(cx, p, os, u) && Refers(cx, q, os, u)
    ensures Refers(cx, p.And(q), os, u)
  {
    hide Ready, UsedLeaf, UsedFragment, Names;
  }

  lemma RefersToMore(cx: Context, p: Parts, os: seq<Origin>, more: seq<Origin>, u: Used)
    requires Ready(cx) && Refers(cx, p, os, u) && forall o | o in os :: o in more
    ensures Refers(cx, p, more, u)
  {
    hide Ready, UsedLeaf, UsedFragment, OriginOk, StructName;
    forall n | Names(cx, os, n) ensures Names(cx, more, n) {
    }
  }

  lemma OneFieldRefers(cx: Context, id: nat, t: TypeId, s: nat, u: Used)
    requires Ready(cx) && id < |cx.a.nodes| && Covered(cx.schema, cx.a, id, u)
    ensures Refers(cx, Parts(FieldFor(cx, id, t, s), [], []), OneFieldStructs(cx, id), u)
  {
    hide Structs, CoveredAll;
    NodeAt(cx.schema, cx.a, id);
    if cx.a.nodes[id].Field? {
      FieldTypeKnown(cx, id);
      if IsCompositeField(cx, id) {
        CompositeMakes(cx, id);
        assert Names(cx, OneFieldStructs(cx, id), StructName(cx, FromField(id)));
      }
    }
  }

  lemma {:induction false} FieldsRefer(cx: Context, ids: seq<nat>, t: TypeId, s: nat, u: Used)
    requires Ready(cx) && InTable(cx.a, ids) && CoveredAll(cx.schema, cx.a, ids, u)
    ensures Refers(cx, FieldsSoFar(cx, ids, t, s), FieldStructs(cx, ids), u)
  {
    hide Ready, Refers, FieldFor, OneFieldStructs;
    if ids == [] {
      NothingRefers(cx, u);
    } else {
      InitInTable(cx.a, ids);
      CoveredLast(cx, ids, u);
      hide CoveredAll, Covered;
      var init, last := ids[..|ids| - 1], ids[|ids| - 1];
      var os := FieldStructs(cx, ids);
      FieldsRefer(cx, init, t, s, u);
      OneFieldRefers(cx, last, t, s, u);
      RefersToMore(cx, FieldsSoFar(cx, init, t, s), FieldStructs(cx, init), os, u);
      RefersToMore(cx, Parts(FieldFor(cx, last, t, s), [], []), OneFieldStructs(cx, last), os, u);
      RefersBoth(cx, FieldsSoFar(cx, init, t, s), Parts(FieldFor(cx, last, t, s), [], []), os, u);
      assert FieldsSoFar(cx, init, t, s).And(Parts(FieldFor(cx, last, t, s), [], [])) == FieldsSoFar(cx, ids, t, s);
    }
  }

  lemma NothingRefers(cx: Context, u: Used)
    requires Ready(cx)
    ensures Refers(cx, NONE, [], u)
  {
  }

  lemma VariantsRefer(cx: Context, ids: seq<nat>, t: TypeId, vs: seq<TypeId>, s: nat, u: Used)
    requires Ready(cx) && InTable(cx.a, ids) && AllHave(cx.schema, vs)
    ensures Refers(cx, VariantsSoFar(cx, ids, t, vs, s), VariantStructs(cx, ids, t, vs), u)
  {
    hide Ready, Matching, VariantStructs, OriginOk, StructName, PathName;
    var os := VariantStructs(cx, ids, t, vs);
    forall k | 0 <= k < |vs|
      ensures var w := VariantFor(cx, ids, t, vs[k], s);
              w.variantType.Some? ==> Names(cx, os, w.variantType.value)
    {
      var ms := Matching(cx, ids, t, vs[k]);
      if ms != [] {
        MatchingFirst(cx, ids, t, vs[k]);
        VariantIsMade(cx, ids, t, vs, k);
        VariantNameIs(cx, ms, vs[k]);
        assert FromVariant(ms, vs[k]) in os;
      }
    }
  }

  lemma PartsRefer(cx: Context, ids: seq<nat>, t: TypeId, s: nat, u: Used)
    requires Ready(cx) && InTable(cx.a, ids) && cx.schema.Has(t) && CoveredAll(cx.schema, cx.a, ids, u)
    ensures Refers(cx, PartsFor(cx, ids, t, s), Structs(cx, ids, t), u)
  {
    hide Walkable, Linked, NodesInRange, SelectsNoInputs, RootsInRange, Refers,
         VariantStructs, FieldStructs, AllFields, AllVariants, Variants;
    if Lone(cx, ids) {
      LoneRefers(cx, ids, t, s, u);
    } else {
      hide CoveredAll;
      var vs := Variants(cx, t);
      var os := Structs(cx, ids, t);
      VariantsRefer(cx, ids, t, vs, s, u);
      FieldsRefer(cx, ids, t, s, u);
      WholeParts(cx, ids, t, s);
      RefersToMore(cx, VariantsSoFar(cx, ids, t, vs, s), VariantStructs(cx, ids, t, vs), os, u);
      RefersToMore(cx, FieldsSoFar(cx, ids, t, s), FieldStructs(cx, ids), os, u);
      RefersBoth(cx, VariantsSoFar(cx, ids, t, vs, s), FieldsSoFar(cx, ids, t, s), os, u);
    }
  }

  /** A lone spread refers to a used fragment. */
  lemma LoneRefers(cx: Context, ids: seq<nat>, t: TypeId, s: nat, u: Used)
    requires Ready(cx) && InTable(cx.a, ids) && cx.schema.Has(t) && Lone(cx, ids) && CoveredAll(cx.schema, cx.a, ids, u)
    ensures Refers(cx, PartsFor(cx, ids, t, s), Structs(cx, ids, t), u)
  {
    LoneSpread(cx, ids, t, s);
    CoveredEach(cx, ids, u);
    hide Ready;
    AliasRefers(cx, ids[0], s, PartsFor(cx, ids, t, s), Structs(cx, ids, t), u);
  }

  lemma AliasRefers(cx: Context, id: nat, s: nat, p: Parts, os: seq<Origin>, u: Used)
    requires Ready(cx) && id < |cx.a.nodes| && Covered(cx.schema, cx.a, id, u)
    requires cx.a.nodes[id].FragmentSpread? && cx.a.nodes[id].fragmentId < |cx.a.fragments|
    requires p == Parts([], [], [SpreadAlias(cx, cx.a.nodes[id].fragmentId, s)])
    ensures Refers(cx, p, os, u)
  {
    hide Structs, CoveredAll;
  }

  lemma {:induction false} EachRefers(cx: Context, ms: seq<nat>, first: nat, v: TypeId, s: nat, u: Used)
    requires Ready(cx) && AllNodes(cx.a, ms) && first < |cx.a.nodes| && cx.schema.Has(v)
    requires EachCovered(cx, ms, u) && Covered(cx.schema, cx.a, first, u)
    ensures Refers(cx, PartsOfEach(cx, ms, first, v, s), InnerStructs(cx, ms, first, v), u)
  {
    if ms == [] {
      NothingRefers(cx, u);
    } else {
      var init, last := ms[..|ms| - 1], ms[|ms| - 1];
      NodeAt(cx.schema, cx.a, first);
      NodeAt(cx.schema, cx.a, last);
      CoveredBelow(cx, first, u);
      assert last in ms && Covered(cx.schema, cx.a, last, u);
      hide Ready, Refers, PartsFor, Structs, Covered, CoveredAll;
      var os, below := InnerStructs(cx, ms, first, v), cx.a.nodes[first].Subselection();
      EachRefers(cx, init, first, v, s, u);
      RefersToMore(cx, PartsOfEach(cx, init, first, v, s), InnerStructs(cx, init, first, v), os, u);
      match cx.a.nodes[last]
      case InlineFragment(_, _) =>
        PartsRefer(cx, below, v, s, u);
        RefersToMore(cx, PartsFor(cx, below, v, s), Structs(cx, below, v), os, u);
        RefersBoth(cx, PartsOfEach(cx, init, first, v, s), PartsFor(cx, below, v, s), os, u);
      case FragmentSpread(f) =>
        SpreadRefers(cx, last, s, os, u);
        RefersBoth(cx, PartsOfEach(cx, init, first, v, s), Parts([SpreadField(cx, f, s)], [], []), os, u);
      case _ =>
        AndNone(PartsOfEach(cx, init, first, v, s));
    }
  }

  lemma SpreadRefers(cx: Context, id: nat, s: nat, os: seq<Origin>, u: Used)
    requires Ready(cx) && id < |cx.a.nodes| && Covered(cx.schema, cx.a, id, u)
    requires cx.a.nodes[id].FragmentSpread? && cx.a.nodes[id].fragmentId < |cx.a.fragments|
    ensures Refers(cx, Parts([SpreadField(cx, cx.a.nodes[id].fragmentId, s)], [], []), os, u)
  {
    hide Structs, CoveredAll;
  }

  /** What belongs to a struct made for accounted selections refers to the structs below it and to what is used. */
  lemma OriginRefers(cx: Context, o: Origin, s: nat, u: Used)
    requires Ready(cx) && OriginOk(cx, o) && OriginCovered(cx, o, u)
    ensures Refers(cx, PartsOf(cx, o, s), Below(cx, o), u)
  {
    hide Refers, Structs, PartsFor, PartsOfEach, InnerStructs, CoveredAll;
    match o
    case FromRoot(root) =>
      RootKnown(cx, root);
      var (ids, t) := RootSelections(cx, root);
      PartsRefer(cx, ids, t, s, u);
    case FromField(id) =>
      NodeAt(cx.schema, cx.a, id);
      CoveredBelow(cx, id, u);
      PartsRefer(cx, cx.a.nodes[id].selectionSet, cx.schema.fields[cx.a.nodes[id].fieldId].fieldType.id, s, u);
    case FromVariant(ms, v) =>
      VariantRefers(cx, ms, v, s, u);
  }

  lemma VariantRefers(cx: Context, ms: seq<nat>, v: TypeId, s: nat, u: Used)
    requires Ready(cx) && OriginOk(cx, FromVariant(ms, v)) && EachCovered(cx, ms, u)
    ensures Refers(cx, PartsOf(cx, FromVariant(ms, v), s), Below(cx, FromVariant(ms, v)), u)
  {
    VariantGets(cx, ms, v, s);
    assert ms[0] in ms;
    hide Ready, Refers, PartsOf, PartsOfEach, VariantParts, InnerStructs, Covered;
    if |ms| == 1 && cx.a.nodes[ms[0]].FragmentSpread? {
      AliasRefers(cx, ms[0], s, PartsOf(cx, FromVariant(ms, v), s), Below(cx, FromVariant(ms, v)), u);
    } else {
      EachRefers(cx, ms, ms[0], v, s, u);
    }
  }

  /** The expansions that are generated for an operation: its own, and those of the fragments it uses. */
  predicate IsGenerated(operation: nat, u: Used, root: Parent) {
    root == OfOperation(operation) || (root.OfFragment? && root.id in u.fragments)
  }

  lemma GeneratedAreCovered(cx: Context, operation: nat, root: Parent)
    requires Ready(cx) && InRange(cx.schema, cx.a.variables) && operation < |cx.a.operations|
    requires IsGenerated(operation, UsedBy(cx.schema, cx.a, operation), root) && HasParent(cx.a, root)
    ensures var ids := RootSelections(cx, root).0;
            InTable(cx.a, ids) && CoveredAll(cx.schema, cx.a, ids, UsedBy(cx.schema, cx.a, operation))
  {
    RootKnown(cx, root);
    UsedIsLeastComplete(cx.schema, cx.a, operation);
    hide Walkable, Linked, NodesInRange, SelectsNoInputs, RootsInRange, CoveredAll, UsedBy, Structs;
    assert Complete(cx.schema, cx.a, operation, UsedBy(cx.schema, cx.a, operation));
  }

  /**
   Nothing is missing for struct `j`: every flattened field and every alias refers to a used
   fragment; every other field to a used enum or scalar, or to a struct of the same
   expansion; and the data of every variant is a struct of the same expansion.
   */
  ghost predicate RefersToGenerated(cx: Context, u: Used, out: Out, j: nat) {
    && (forall f | f in FieldsOn(out.fields, j) && f.flatten :: UsedFragment(cx, u, f.fieldType))
    && (forall f | f in FieldsOn(out.fields, j) && !f.flatten ::
          UsedLeaf(cx, u, f.fieldType) || f.fieldType in out.types)
    && (forall w | w in VariantsOn(out.variants, j) && w.variantType.Some? :: w.variantType.value in out.types)
    && (forall a | a in AliasesOn(out.aliases, j) :: UsedFragment(cx, u, a.name))
  }

  /** So it is for every struct in the expansion of an operation and of every fragment it uses. */
  lemma EveryReferenceIsGenerated(cx: Context, operation: nat, root: Parent, out: Out, j: nat)
    requires Ready(cx) && InRange(cx.schema, cx.a.variables) && operation < |cx.a.operations|
    requires IsGenerated(operation, UsedBy(cx.schema, cx.a, operation), root) && HasParent(cx.a, root)
    requires Whole(cx, root, out) && j < |out.types|
    ensures RefersToGenerated(cx, UsedBy(cx.schema, cx.a, operation), out, j)
  {
    var u := UsedBy(cx.schema, cx.a, operation);
    AllStructsClosed(cx, root);
    GeneratedAreCovered(cx, operation, root);
    RootStructsCovered(cx, root, u);
    hide Ready, OriginOk, StructName, UsedLeaf, UsedFragment, UsedBy, OriginCovered, PartsOf, FieldsOn, VariantsOn,
         AliasesOn;
    assert out.origins == [FromRoot(root)] + Structs(cx, RootSelections(cx, root).0, RootSelections(cx, root).1);
    hide Below, Structs;
    assert Settled(cx, out, j);
    var o := out.origins[j];
    assert o in out.origins;
    OriginRefers(cx, o, j, u);
    RefersToMore(cx, PartsOf(cx, o, j), Below(cx, o), out.origins, u);
    forall n | Names(cx, out.origins, n) ensures n in out.types {
      var p :| p in out.origins && OriginOk(cx, p) && StructName(cx, p) == n;
      var i: nat :| i < |out.origins| && out.origins[i] == p;
      assert Settled(cx, out, i);
    }
    assert On(out, j) == PartsOf(cx, o, j);
  }
}
