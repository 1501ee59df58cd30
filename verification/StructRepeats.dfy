/** When an expansion makes every struct once only. */
module StructRepeats {
  import opened Wrappers
  import opened Schemas
  import opened Arenas
  import opened ArenaShape
  import opened ReadBack
  import opened Resolver
  import opened Walks
  import opened UsedTypes
  import opened Expansion
  import opened ExpandedSelections
  import opened VariantContents
  import opened ResponseSizes

  /** No two structs of the list were made for the same place in the table. */
  predicate MadeOnce(os: seq<Origin>) {
    forall i, j | 0 <= i < j < |os| :: Position(os[i]) != Position(os[j])
  }

  predicate Apart(os: seq<Origin>, more: seq<Origin>) {
    forall o, p | o in os && p in more :: Position(o) != Position(p)
  }

  lemma BothMadeOnce(os: seq<Origin>, more: seq<Origin>)
    requires Apart(os, more)
    ensures MadeOnce(os + more) <==> MadeOnce(os) && MadeOnce(more)
  {
    hide Position;
    assert forall i | 0 <= i < |os| :: (os + more)[i] == os[i] && os[i] in os;
    assert forall j | 0 <= j < |more| :: (os + more)[|os| + j] == more[j] && more[j] in more;
  }

  lemma PartsMadeOnce(os: seq<Origin>, more: seq<Origin>)
    ensures MadeOnce(os + more) ==> MadeOnce(os) && MadeOnce(more) && Apart(os, more)
  {
    hide Position;
    assert forall i | 0 <= i < |os| :: (os + more)[i] == os[i];
    assert forall j | 0 <= j < |more| :: (os + more)[|os| + j] == more[j];
  }

  // ----- Where in the table a struct comes from -----

  /** The type an inline fragment or a spread is on. */
  function TypeOn(cx: Context, k: nat): Option<TypeId>
    requires Ready(cx) && k < |cx.a.nodes|
  {
    NodeAt(cx.schema, cx.a, k);
    match cx.a.nodes[k]
    case InlineFragment(on, _) => Some(on)
    case FragmentSpread(f) => Some(cx.a.fragments[f].on)
    case _ => None
  }

  /** The selection `id` is on the way down to what the struct was made for. */
  predicate Through(cx: Context, o: Origin, id: nat)
    requires Ready(cx)
  {
    && OriginOk(cx, o) && !o.FromRoot? && id in ChainTo(cx.a, Position(o))
    && (o.FromVariant? ==> TypeOn(cx, o.selections[0]) == Some(o.on))
  }

  ghost predicate ThroughSome(cx: Context, o: Origin, ids: seq<nat>)
    requires Ready(cx)
  {
    exists id | id in ids :: Through(cx, o, id)
  }

  predicate SameParent(a: Arena, ids: seq<nat>) {
    && |a.nodes| == |a.parents|
    && (forall c | c in ids :: c < |a.nodes|)
    && forall c, d | c in ids && d in ids :: a.parents[c] == a.parents[d]
  }

  lemma {:induction false} ChainIsAbove(a: Arena, k: nat, id: nat)
    requires Linked(a) && k < |a.nodes| && id in ChainTo(a, k)
    ensures id <= k
    decreases k
  {
    hide Linked, ChainTo;
    OneUp(a, k);
    if id != k {
      ChainIsAbove(a, a.parents[k].id, id);
    }
  }

  lemma {:induction false} ChainGoesUp(a: Arena, k: nat, c: nat)
    requires Linked(a) && k < |a.nodes| && c in ChainTo(a, k) && c < |a.nodes|
    ensures LinksBack(a, c) && (!IsRoot(a.parents[c]) ==> a.parents[c].id in ChainTo(a, k))
    decreases k
  {
    hide Linked, ChainTo;
    OneUp(a, k);
    if c != k {
      ChainGoesUp(a, a.parents[k].id, c);
    } else if !IsRoot(a.parents[c]) {
      EndOfChain(a, a.parents[c].id);
    }
  }

  lemma EndOfChain(a: Arena, k: nat)
    requires Linked(a) && k < |a.nodes|
    ensures k in ChainTo(a, k)
  {
  }

  /** Only one of two siblings is on the way to a selection. */
  lemma {:induction false} SiblingsApart(a: Arena, k: nat, c: nat, d: nat)
    requires Linked(a) && k < |a.nodes| && c in ChainTo(a, k) && d in ChainTo(a, k) && c < |a.nodes| && d < |a.nodes|
    requires |a.parents| == |a.nodes| && a.parents[c] == a.parents[d]
    ensures c == d
    decreases k
  {
    hide Linked, ChainTo;
    OneUp(a, k);
    if c != d {
      if c == k || d == k {
        var other := if c == k then d else c;
        ChainIsAbove(a, a.parents[k].id, other);
        OneUp(a, other);
      } else {
        SiblingsApart(a, a.parents[k].id, c, d);
      }
    }
  }

  /** What is below a child of `id` is below `id`, and not `id`. */
  lemma BelowChild(cx: Context, id: nat, o: Origin)
    requires Ready(cx) && id < |cx.a.nodes| && ThroughSome(cx, o, cx.a.nodes[id].Subselection())
    ensures Through(cx, o, id) && Position(o) > id
  {
    var c :| c in cx.a.nodes[id].Subselection() && Through(cx, o, c);
    ChildOf(cx, id, c);
    hide Ready, ChainTo;
    ChainGoesUp(cx.a, Position(o), c);
    ChainIsAbove(cx.a, Position(o), c);
  }

  lemma ChildOf(cx: Context, id: nat, c: nat)
    requires Ready(cx) && id < |cx.a.nodes| && c in cx.a.nodes[id].Subselection()
    ensures id < c < |cx.a.nodes| == |cx.a.parents| && cx.a.parents[c] == LinkTo(cx.a.nodes[id], id) && Linked(cx.a)
    ensures !IsRoot(cx.a.parents[c]) && cx.a.parents[c].id == id
  {
    assert LinksOn(cx.a, id);
  }

  lemma ChildrenHaveSameParent(cx: Context, id: nat)
    requires Ready(cx) && id < |cx.a.nodes|
    ensures SameParent(cx.a, cx.a.nodes[id].Subselection())
  {
    forall c | c in cx.a.nodes[id].Subselection()
      ensures c < |cx.a.nodes| == |cx.a.parents| && cx.a.parents[c] == LinkTo(cx.a.nodes[id], id)
    {
      ChildOf(cx, id, c);
    }
  }

  // ----- Every struct is made below one of the selections -----

  ghost predicate AllBelow(cx: Context, os: seq<Origin>, id: nat, after: int)
    requires Ready(cx)
  {
    forall o | o in os :: Through(cx, o, id) && after < Position(o)
  }

  ghost predicate AllThrough(cx: Context, os: seq<Origin>, ids: seq<nat>)
    requires Ready(cx)
  {
    forall o | o in os :: ThroughSome(cx, o, ids)
  }

  /** The struct was made below a selection on one of the variants. */
  ghost predicate ThroughHead(cx: Context, o: Origin, ids: seq<nat>, t: TypeId, vs: seq<TypeId>)
    requires Ready(cx)
  {
    exists id, v | id in ids && v in vs :: id < |cx.a.nodes| && Matches(cx, id, t, v) && Through(cx, o, id)
  }

  ghost predicate ThroughField(cx: Context, o: Origin, ids: seq<nat>)
    requires Ready(cx)
  {
    exists id | id in ids :: id < |cx.a.nodes| && cx.a.nodes[id].Field? && Through(cx, o, id)
  }

  lemma {:induction false} StructsThrough(cx: Context, ids: seq<nat>, t: TypeId)
    requires Ready(cx) && InTable(cx.a, ids) && cx.schema.Has(t)
    ensures AllThrough(cx, Structs(cx, ids, t), ids)
    decreases |cx.a.nodes| - First(ids, |cx.a.nodes|), 3, 0
  {
    if !Lone(cx, ids) {
      hide Ready, Through, Matches, VariantStructs, FieldStructs, Variants;
      var vs := Variants(cx, t);
      VariantsThrough(cx, ids, t, vs);
      FieldsThrough(cx, ids);
      assert Structs(cx, ids, t) == VariantStructs(cx, ids, t, vs) + FieldStructs(cx, ids);
    }
  }

  lemma {:induction false} VariantsThrough(cx: Context, ids: seq<nat>, t: TypeId, vs: seq<TypeId>)
    requires Ready(cx) && InTable(cx.a, ids) && AllHave(cx.schema, vs)
    ensures forall o | o in VariantStructs(cx, ids, t, vs) :: ThroughHead(cx, o, ids, t, vs)
    decreases |cx.a.nodes| - First(ids, |cx.a.nodes|), 2, |vs|
  {
    if vs != [] {
      hide Ready, Through, Matches, OneVariantStructs, Matching;
      var init, v := vs[..|vs| - 1], vs[|vs| - 1];
      VariantsThrough(cx, ids, t, init);
      OneVariantThrough(cx, ids, t, v);
      assert forall w | w in init :: w in vs;
    }
  }

  lemma {:induction false} OneVariantThrough(cx: Context, ids: seq<nat>, t: TypeId, v: TypeId)
    requires Ready(cx) && InTable(cx.a, ids) && cx.schema.Has(v)
    ensures var ms := Matching(cx, ids, t, v);
            && (ms == [] ==> OneVariantStructs(cx, ids, t, v) == [])
            && (ms != [] ==>
                  && ms[0] in ids && ms[0] < |cx.a.nodes| && Matches(cx, ms[0], t, v)
                  && AllBelow(cx, OneVariantStructs(cx, ids, t, v), ms[0], -1))
    decreases |cx.a.nodes| - First(ids, |cx.a.nodes|), 2, 0
  {
    OneVariantMakes(cx, ids, t, v);
    var ms := Matching(cx, ids, t, v);
    if ms != [] {
      assert ms[0] in ms;
      MatchingFirst(cx, ids, t, v);
      hide Ready, Matches, OneVariantStructs, Matching, InnerStructs;
      EndOfChain(cx.a, ms[0]);
      if !(|ms| == 1 && cx.a.nodes[ms[0]].FragmentSpread?) {
        InnerThrough(cx, ms, ms[0], v);
      }
    }
  }

  lemma {:induction false} InnerThrough(cx: Context, ms: seq<nat>, first: nat, v: TypeId)
    requires Ready(cx) && AllNodes(cx.a, ms) && first < |cx.a.nodes| && cx.schema.Has(v)
    ensures AllBelow(cx, InnerStructs(cx, ms, first, v), first, first)
    decreases |cx.a.nodes| - first, 1, |ms|
  {
    if ms != [] {
      NodeAt(cx.schema, cx.a, first);
      hide Ready, Through, Structs;
      var below := cx.a.nodes[first].Subselection();
      InnerThrough(cx, ms[..|ms| - 1], first, v);
      StructsThrough(cx, below, v);
      forall o | o in Structs(cx, below, v) ensures Through(cx, o, first) && Position(o) > first {
        BelowChild(cx, first, o);
      }
    }
  }

  lemma {:induction false} FieldsThrough(cx: Context, ids: seq<nat>)
    requires Ready(cx) && InTable(cx.a, ids)
    ensures forall o | o in FieldStructs(cx, ids) :: ThroughField(cx, o, ids)
    decreases |cx.a.nodes| - First(ids, |cx.a.nodes|), 1, |ids|
  {
    if ids != [] {
      hide Ready, Through, OneFieldStructs;
      InitInTable(cx.a, ids);
      var init, last := ids[..|ids| - 1], ids[|ids| - 1];
      FieldsThrough(cx, init);
      OneFieldThrough(cx, last);
      assert forall id | id in init :: id in ids;
    }
  }

  lemma {:induction false} OneFieldThrough(cx: Context, id: nat)
    requires Ready(cx) && id < |cx.a.nodes|
    ensures AllBelow(cx, OneFieldStructs(cx, id), id, -1)
    ensures IsCompositeField(cx, id) ==>
              && cx.a.nodes[id].Field?
              && var t := cx.schema.fields[cx.a.nodes[id].fieldId].fieldType.id;
                 && InTable(cx.a, cx.a.nodes[id].selectionSet) && cx.schema.Has(t)
                 && OneFieldStructs(cx, id) == [FromField(id)] + Structs(cx, cx.a.nodes[id].selectionSet, t)
                 && AllBelow(cx, Structs(cx, cx.a.nodes[id].selectionSet, t), id, id)
    ensures !IsCompositeField(cx, id) ==> OneFieldStructs(cx, id) == []
    decreases |cx.a.nodes| - id, 0, 0
  {
    if IsCompositeField(cx, id) {
      NodeAt(cx.schema, cx.a, id);
      EndOfChain(cx.a, id);
      hide Structs, ChainTo, Linked, Walkable;
      var below, t := cx.a.nodes[id].selectionSet, cx.schema.fields[cx.a.nodes[id].fieldId].fieldType.id;
      StructsThrough(cx, below, t);
      forall o | o in Structs(cx, below, t) ensures Through(cx, o, id) && Position(o) > id {
        BelowChild(cx, id, o);
      }
    }
  }

  // ----- When no struct is made twice -----

  /** No variant that has data is listed twice for type `t`. */
  predicate VariantsOnce(cx: Context, ids: seq<nat>, t: TypeId, vs: seq<TypeId>)
    requires Ready(cx) && InTable(cx.a, ids)
  {
    forall i, j | 0 <= i < j < |vs| && vs[i] == vs[j] :: Matching(cx, ids, t, vs[j]) == []
  }

  predicate SetOnce(cx: Context, ids: seq<nat>, t: TypeId)
    requires Ready(cx) && InTable(cx.a, ids) && cx.schema.Has(t)
  {
    Lone(cx, ids) || VariantsOnce(cx, ids, t, Variants(cx, t))
  }

  /** What is under the first selection on a variant is expanded once at most, or calls for no structs. */
  predicate InnerOnce(cx: Context, ms: seq<nat>, first: nat, v: TypeId)
    requires Ready(cx) && AllNodes(cx.a, ms) && first < |cx.a.nodes| && cx.schema.Has(v)
  {
    NodeAt(cx.schema, cx.a, first);
    var below := cx.a.nodes[first].Subselection();
    Inlines(cx, ms) == 0 || (SetOnce(cx, below, v) && (Inlines(cx, ms) == 1 || Structs(cx, below, v) == []))
  }

  /** Expanding what is under this struct starts no struct twice by itself. */
  predicate OnceAt(cx: Context, o: Origin)
    requires Ready(cx)
  {
    OriginOk(cx, o) &&
    match o
    case FromRoot(root) =>
      RootKnown(cx, root);
      SetOnce(cx, RootSelections(cx, root).0, RootSelections(cx, root).1)
    case FromField(id) =>
      NodeAt(cx.schema, cx.a, id);
      SetOnce(cx, cx.a.nodes[id].selectionSet, cx.schema.fields[cx.a.nodes[id].fieldId].fieldType.id)
    case FromVariant(ms, v) => InnerOnce(cx, ms, ms[0], v)
  }

  ghost predicate AllOnce(cx: Context, os: seq<Origin>)
    requires Ready(cx)
  {
    forall o | o in os :: OnceAt(cx, o)
  }

  lemma AllOnceBoth(cx: Context, os: seq<Origin>, more: seq<Origin>)
    requires Ready(cx)
    ensures AllOnce(cx, os + more) <==> AllOnce(cx, os) && AllOnce(cx, more)
  {
    hide Ready, OnceAt;
    assert forall o | o in os :: o in os + more;
    assert forall o | o in more :: o in os + more;
  }

  lemma {:induction false} StructsOnce(cx: Context, ids: seq<nat>, t: TypeId)
    requires Ready(cx) && InTable(cx.a, ids) && cx.schema.Has(t) && SameParent(cx.a, ids)
    ensures MadeOnce(Structs(cx, ids, t)) <==> SetOnce(cx, ids, t) && AllOnce(cx, Structs(cx, ids, t))
    decreases |cx.a.nodes| - First(ids, |cx.a.nodes|), 3, 0
  {
    if !Lone(cx, ids) {
      var vs := Variants(cx, t);
      hide Ready, OnceAt, Variants, VariantsOnce, VariantStructs, FieldStructs, MadeOnce, AllOnce;
      VariantStructsOnce(cx, ids, t, vs);
      FieldStructsOnce(cx, ids);
      HeadsAndFieldsApart(cx, ids, t, vs);
      BothMadeOnce(VariantStructs(cx, ids, t, vs), FieldStructs(cx, ids));
      AllOnceBoth(cx, VariantStructs(cx, ids, t, vs), FieldStructs(cx, ids));
    }
  }

  lemma HeadsAndFieldsApart(cx: Context, ids: seq<nat>, t: TypeId, vs: seq<TypeId>)
    requires Ready(cx) && InTable(cx.a, ids) && AllHave(cx.schema, vs) && SameParent(cx.a, ids)
    ensures Apart(VariantStructs(cx, ids, t, vs), FieldStructs(cx, ids))
  {
    VariantsThrough(cx, ids, t, vs);
    FieldsThrough(cx, ids);
    hide Walkable, ChainTo, VariantStructs, FieldStructs;
    forall o, p | o in VariantStructs(cx, ids, t, vs) && p in FieldStructs(cx, ids) ensures Position(o) != Position(p) {
      if Position(o) == Position(p) {
        var id, v :| id in ids && v in vs && id < |cx.a.nodes| && Matches(cx, id, t, v) && Through(cx, o, id);
        var other :| other in ids && other < |cx.a.nodes| && cx.a.nodes[other].Field? && Through(cx, p, other);
        SiblingsApart(cx.a, Position(o), id, other);
        assert false;
      }
    }
  }

  lemma VariantsOnceMore(cx: Context, ids: seq<nat>, t: TypeId, vs: seq<TypeId>)
    requires Ready(cx) && InTable(cx.a, ids) && vs != []
    ensures var init, v := vs[..|vs| - 1], vs[|vs| - 1];
            VariantsOnce(cx, ids, t, vs) <==>
            VariantsOnce(cx, ids, t, init) && (v in init ==> Matching(cx, ids, t, v) == [])
  {
    hide Ready, Matching;
    var init, v := vs[..|vs| - 1], vs[|vs| - 1];
    if v in init {
      var k: nat :| k < |init| && init[k] == v;
      assert vs[k] == vs[|vs| - 1];
    }
  }

  lemma {:induction false} VariantStructsOnce(cx: Context, ids: seq<nat>, t: TypeId, vs: seq<TypeId>)
    requires Ready(cx) && InTable(cx.a, ids) && AllHave(cx.schema, vs) && SameParent(cx.a, ids)
    ensures MadeOnce(VariantStructs(cx, ids, t, vs)) <==>
            VariantsOnce(cx, ids, t, vs) && AllOnce(cx, VariantStructs(cx, ids, t, vs))
    decreases |cx.a.nodes| - First(ids, |cx.a.nodes|), 2, |vs|
  {
    hide Ready, OnceAt, OneVariantStructs, MadeOnce, AllOnce, Matching, VariantsOnce, Apart;
    if vs == [] {
      NothingRepeated(cx, ids, t);
    } else {
      var init, v := vs[..|vs| - 1], vs[|vs| - 1];
      var before, last := VariantStructs(cx, ids, t, init), OneVariantStructs(cx, ids, t, v);
      VariantStructsOnce(cx, ids, t, init);
      OneVariantOnce(cx, ids, t, v);
      VariantsOnceMore(cx, ids, t, vs);
      AllOnceBoth(cx, before, last);
      if v in init && Matching(cx, ids, t, v) != [] {
        RepeatedVariant(cx, ids, t, init, v);
        PartsMadeOnce(before, last);
      } else {
        LastVariantApart(cx, ids, t, vs);
        BothMadeOnce(before, last);
      }
    }
  }

  lemma NothingRepeated(cx: Context, ids: seq<nat>, t: TypeId)
    requires Ready(cx) && InTable(cx.a, ids)
    ensures MadeOnce([]) && VariantsOnce(cx, ids, t, []) && AllOnce(cx, [])
  {
  }

  lemma RepeatedVariant(cx: Context, ids: seq<nat>, t: TypeId, init: seq<TypeId>, v: TypeId)
    requires Ready(cx) && InTable(cx.a, ids) && AllHave(cx.schema, init) && v in init && Matching(cx, ids, t, v) != []
    ensures cx.schema.Has(v) && !Apart(VariantStructs(cx, ids, t, init), OneVariantStructs(cx, ids, t, v))
  {
    hide Ready, OneVariantStructs, VariantStructs, Matching;
    var k: nat :| k < |init| && init[k] == v;
    VariantIncluded(cx, ids, t, init, k);
    OneVariantMakes(cx, ids, t, v);
    assert OneVariantStructs(cx, ids, t, v)[0] in OneVariantStructs(cx, ids, t, v);
  }

  lemma {:induction false} VariantIncluded(cx: Context, ids: seq<nat>, t: TypeId, vs: seq<TypeId>, k: nat)
    requires Ready(cx) && InTable(cx.a, ids) && AllHave(cx.schema, vs) && k < |vs|
    ensures forall o | o in OneVariantStructs(cx, ids, t, vs[k]) :: o in VariantStructs(cx, ids, t, vs)
    decreases |vs|
  {
    hide Ready, OneVariantStructs;
    if k < |vs| - 1 {
      VariantIncluded(cx, ids, t, vs[..|vs| - 1], k);
    }
  }

  lemma HeadsAreOne(cx: Context, o: Origin, p: Origin, id: nat, head: nat, t: TypeId, w: TypeId, v: TypeId)
    requires Ready(cx) && id < |cx.a.nodes| && head < |cx.a.nodes| && |cx.a.parents| == |cx.a.nodes|
    requires cx.a.parents[id] == cx.a.parents[head] && Through(cx, o, id) && Through(cx, p, head)
    requires Position(o) == Position(p)
    requires Matches(cx, id, t, w) && Matches(cx, head, t, v)
    ensures w == v
  {
    hide Walkable, ChainTo;
    SiblingsApart(cx.a, Position(o), id, head);
  }

  lemma LastVariantApart(cx: Context, ids: seq<nat>, t: TypeId, vs: seq<TypeId>)
    requires Ready(cx) && InTable(cx.a, ids) && AllHave(cx.schema, vs) && vs != [] && SameParent(cx.a, ids)
    requires var v := vs[|vs| - 1];
             v in vs[..|vs| - 1] ==> Matching(cx, ids, t, v) == []
    ensures Apart(VariantStructs(cx, ids, t, vs[..|vs| - 1]), OneVariantStructs(cx, ids, t, vs[|vs| - 1]))
  {
    var init, v := vs[..|vs| - 1], vs[|vs| - 1];
    VariantsThrough(cx, ids, t, init);
    OneVariantThrough(cx, ids, t, v);
    hide Ready, Through, Matches, VariantStructs, OneVariantStructs, Matching;
    assert forall c | c in ids :: c < |cx.a.nodes|;
    forall o, p | o in VariantStructs(cx, ids, t, init) && p in OneVariantStructs(cx, ids, t, v)
      ensures Position(o) != Position(p)
    {
      if Position(o) == Position(p) {
        var head := Matching(cx, ids, t, v)[0];
        var id, w :| id in ids && w in init && id < |cx.a.nodes| && Matches(cx, id, t, w) && Through(cx, o, id);
        HeadsAreOne(cx, o, p, id, head, t, w, v);
        assert false;
      }
    }
  }

  lemma {:induction false} OneVariantOnce(cx: Context, ids: seq<nat>, t: TypeId, v: TypeId)
    requires Ready(cx) && InTable(cx.a, ids) && cx.schema.Has(v)
    ensures MadeOnce(OneVariantStructs(cx, ids, t, v)) <==> AllOnce(cx, OneVariantStructs(cx, ids, t, v))
    decreases |cx.a.nodes| - First(ids, |cx.a.nodes|), 2, 0
  {
    OneVariantMakes(cx, ids, t, v);
    var ms := Matching(cx, ids, t, v);
    if ms != [] {
      MatchingFirst(cx, ids, t, v);
      InnerThrough(cx, ms, ms[0], v);
      InnerStructsOnce(cx, ms, ms[0], v);
      hide Ready, OneVariantStructs, Matching, InnerStructs, InnerOnce, MadeOnce, AllOnce;
      var o, below := FromVariant(ms, v), VariantStruct(cx, ms, v)[1..];
      assert VariantStruct(cx, ms, v) == [o] + below;
      if |ms| == 1 && cx.a.nodes[ms[0]].FragmentSpread? {
        NoInlinesNoStructs(cx, ms, v);
      }
      assert below == InnerStructs(cx, ms, ms[0], v);
      AllOnceBoth(cx, [o], below);
      BothMadeOnce([o], below);
      OneAlone(cx, o);
    }
  }

  lemma NoInlinesNoStructs(cx: Context, ms: seq<nat>, v: TypeId)
    requires Ready(cx) && |ms| == 1 && ms[0] < |cx.a.nodes| && cx.a.nodes[ms[0]].FragmentSpread? && cx.schema.Has(v)
    ensures AllNodes(cx.a, ms) && InnerStructs(cx, ms, ms[0], v) == []
  {
    assert InnerStructs(cx, ms[..0], ms[0], v) == [];
  }

  lemma OneAlone(cx: Context, o: Origin)
    requires Ready(cx)
    ensures MadeOnce([o]) && (AllOnce(cx, [o]) <==> OnceAt(cx, o))
  {
    assert o in [o];
  }

  function Copies(n: nat, os: seq<Origin>): seq<Origin> {
    if n == 0 then [] else Copies(n - 1, os) + os
  }

  /** For every inline fragment the same structs come once more. */
  lemma {:induction false} InnerIsRepeated(cx: Context, ms: seq<nat>, first: nat, v: TypeId)
    requires Ready(cx) && AllNodes(cx.a, ms) && first < |cx.a.nodes| && cx.schema.Has(v)
    ensures InTable(cx.a, cx.a.nodes[first].Subselection())
    ensures InnerStructs(cx, ms, first, v) == Copies(Inlines(cx, ms), Structs(cx, cx.a.nodes[first].Subselection(), v))
    decreases |ms|
  {
    NodeAt(cx.schema, cx.a, first);
    if ms != [] {
      hide Ready, Structs, InnerStructs, Inlines;
      InnerIsRepeated(cx, ms[..|ms| - 1], first, v);
      InnerMore(cx, ms, first, v);
    } else {
      assert InnerStructs(cx, [], first, v) ==
             Copies(Inlines(cx, []), Structs(cx, cx.a.nodes[first].Subselection(), v));
    }
  }

  lemma InnerMore(cx: Context, ms: seq<nat>, first: nat, v: TypeId)
    requires Ready(cx) && AllNodes(cx.a, ms) && first < |cx.a.nodes| && cx.schema.Has(v) && ms != []
    ensures InTable(cx.a, cx.a.nodes[first].Subselection())
    ensures var init, inline := ms[..|ms| - 1], cx.a.nodes[ms[|ms| - 1]].InlineFragment?;
            && Inlines(cx, ms) == Inlines(cx, init) + (if inline then 1 else 0)
            && InnerStructs(cx, ms, first, v) ==
               if inline then InnerStructs(cx, init, first, v) + Structs(cx, cx.a.nodes[first].Subselection(), v)
               else InnerStructs(cx, init, first, v)
  {
    NodeAt(cx.schema, cx.a, first);
    hide Structs;
  }

  lemma {:induction false} CopiesMadeOnce(n: nat, os: seq<Origin>)
    ensures MadeOnce(Copies(n, os)) <==> n == 0 || (MadeOnce(os) && (n == 1 || os == []))
  {
    if n == 1 {
      assert Copies(0, os) + os == os;
    } else if n > 1 {
      CopiesMadeOnce(n - 1, os);
      PartsMadeOnce(Copies(n - 1, os), os);
      if os == [] {
        assert Copies(n - 1, os) + os == Copies(n - 1, os);
      } else {
        LastCopy(n - 1, os);
      }
    }
  }

  lemma LastCopy(n: nat, os: seq<Origin>)
    requires n > 0 && os != []
    ensures !Apart(Copies(n, os), os)
  {
    assert os[0] in Copies(n - 1, os) + os && os[0] in os;
  }

  lemma {:induction false} CopiesAllOnce(cx: Context, n: nat, os: seq<Origin>)
    requires Ready(cx)
    ensures AllOnce(cx, Copies(n, os)) <==> n == 0 || AllOnce(cx, os)
  {
    if n > 0 {
      hide Ready, OnceAt;
      CopiesAllOnce(cx, n - 1, os);
      AllOnceBoth(cx, Copies(n - 1, os), os);
    }
  }

  lemma {:induction false} InnerStructsOnce(cx: Context, ms: seq<nat>, first: nat, v: TypeId)
    requires Ready(cx) && AllNodes(cx.a, ms) && first < |cx.a.nodes| && cx.schema.Has(v)
    ensures MadeOnce(InnerStructs(cx, ms, first, v)) <==>
            InnerOnce(cx, ms, first, v) && AllOnce(cx, InnerStructs(cx, ms, first, v))
    decreases |cx.a.nodes| - first, 1, |ms|
  {
    NodeAt(cx.schema, cx.a, first);
    ChildrenHaveSameParent(cx, first);
    hide Ready, Structs, SetOnce, MadeOnce, AllOnce, OnceAt, InnerStructs, Copies, Inlines;
    var once := Structs(cx, cx.a.nodes[first].Subselection(), v);
    StructsOnce(cx, cx.a.nodes[first].Subselection(), v);
    InnerIsRepeated(cx, ms, first, v);
    CopiesMadeOnce(Inlines(cx, ms), once);
    CopiesAllOnce(cx, Inlines(cx, ms), once);
    assert once == [] ==> AllOnce(cx, once) by { NothingIsOnce(cx); }
  }

  lemma NothingIsOnce(cx: Context)
    requires Ready(cx)
    ensures AllOnce(cx, [])
  {
  }

  lemma {:induction false} FieldStructsOnce(cx: Context, ids: seq<nat>)
    requires Ready(cx) && InTable(cx.a, ids) && SameParent(cx.a, ids)
    ensures MadeOnce(FieldStructs(cx, ids)) <==> AllOnce(cx, FieldStructs(cx, ids))
    decreases |cx.a.nodes| - First(ids, |cx.a.nodes|), 1, |ids|
  {
    if ids != [] {
      InitInTable(cx.a, ids);
      hide Ready, OnceAt, OneFieldStructs, MadeOnce, AllOnce;
      var init, last := ids[..|ids| - 1], ids[|ids| - 1];
      var before, more := FieldStructs(cx, init), OneFieldStructs(cx, last);
      FieldStructsOnce(cx, init);
      OneFieldOnce(cx, last);
      LastFieldApart(cx, ids);
      BothMadeOnce(before, more);
      AllOnceBoth(cx, before, more);
    } else {
      assert MadeOnce([]);
    }
  }

  lemma LastFieldApart(cx: Context, ids: seq<nat>)
    requires Ready(cx) && InTable(cx.a, ids) && SameParent(cx.a, ids) && ids != []
    ensures InTable(cx.a, ids[..|ids| - 1]) && ids[|ids| - 1] < |cx.a.nodes|
    ensures Apart(FieldStructs(cx, ids[..|ids| - 1]), OneFieldStructs(cx, ids[|ids| - 1]))
  {
    InitInTable(cx.a, ids);
    var init, last := ids[..|ids| - 1], ids[|ids| - 1];
    FieldsThrough(cx, init);
    OneFieldThrough(cx, last);
    hide Walkable, ChainTo, FieldStructs, OneFieldStructs;
    forall o, p | o in FieldStructs(cx, init) && p in OneFieldStructs(cx, last) ensures Position(o) != Position(p) {
      if Position(o) == Position(p) {
        var id :| id in init && id < |cx.a.nodes| && cx.a.nodes[id].Field? && Through(cx, o, id);
        SiblingsApart(cx.a, Position(o), id, last);
        assert false;
      }
    }
  }

  lemma {:induction false} OneFieldOnce(cx: Context, id: nat)
    requires Ready(cx) && id < |cx.a.nodes|
    ensures MadeOnce(OneFieldStructs(cx, id)) <==> AllOnce(cx, OneFieldStructs(cx, id))
    decreases |cx.a.nodes| - id, 0, 0
  {
    OneFieldThrough(cx, id);
    if IsCompositeField(cx, id) {
      NodeAt(cx.schema, cx.a, id);
      ChildrenHaveSameParent(cx, id);
      hide Structs, ChainTo, Linked, Walkable, OneFieldStructs, MadeOnce, AllOnce, SetOnce;
      var below, t := cx.a.nodes[id].selectionSet, cx.schema.fields[cx.a.nodes[id].fieldId].fieldType.id;
      StructsOnce(cx, below, t);
      BothMadeOnce([FromField(id)], Structs(cx, below, t));
      AllOnceBoth(cx, [FromField(id)], Structs(cx, below, t));
      OneAlone(cx, FromField(id));
    } else {
      assert MadeOnce([]);
    }
  }

  /** The structs of an expansion are all made for different places exactly if no step repeats any. */
  lemma AllMadeOnceExactlyWhen(cx: Context, root: Parent, typed: bool)
    requires Ready(cx) && Shaped(cx.schema, cx.a, typed) && IsRoot(root) && HasParent(cx.a, root)
    ensures var (ids, t) := RootSelections(cx, root);
            && InTable(cx.a, ids) && cx.schema.Has(t)
            && var os := [FromRoot(root)] + Structs(cx, ids, t);
               && (MadeOnce(os) <==> AllOnce(cx, os))
               && (forall o | o in os[1..] :: ThroughSome(cx, o, ids))
               && SameParent(cx.a, ids) && (forall c | c in ids :: cx.a.parents[c] == root)
  {
    RootKnown(cx, root);
    var (ids, t) := RootSelections(cx, root);
    assert LinkedDown(cx.a, root) && ids == ChildrenOf(cx.a, root);
    hide Ready, Shaped, Structs, OnceAt, MadeOnce, AllOnce, SetOnce;
    StructsOnce(cx, ids, t);
    StructsThrough(cx, ids, t);
    var o, below := FromRoot(root), Structs(cx, ids, t);
    assert Apart([o], below) by {
      forall p | p in below ensures Position(p) >= 0 { PlacesInTable(cx, p, ids); }
    }
    BothMadeOnce([o], below);
    AllOnceBoth(cx, [o], below);
    OneAlone(cx, o);
    RootOnce(cx, root);
  }

  lemma PlacesInTable(cx: Context, o: Origin, ids: seq<nat>)
    requires Ready(cx) && ThroughSome(cx, o, ids)
    ensures 0 <= Position(o) < |cx.a.nodes|
  {
    var id :| id in ids && Through(cx, o, id);
  }

  lemma RootOnce(cx: Context, root: Parent)
    requires Ready(cx) && IsRoot(root) && HasParent(cx.a, root)
    ensures var (ids, t) := RootSelections(cx, root);
            InTable(cx.a, ids) && cx.schema.Has(t) && (OnceAt(cx, FromRoot(root)) <==> SetOnce(cx, ids, t))
  {
    RootKnown(cx, root);
    hide SetOnce;
  }
}
