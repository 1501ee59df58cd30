/**
 The shape of the selection table: child lists and parent links agree, parents come before
 children, and every selection fits the type its parent link denotes.

 A selection set lies in one stretch of the table, a region, in which the entry of every
 selection is followed by the regions of those under it; that is what a layout gives, and
 what later entries leave as it is.
 */
module ArenaShape {
  import Ast
  import opened Schemas
  import opened Arenas
  import opened Resolver

  predicate Ascending(ids: seq<nat>) {
    forall i, j | 0 <= i < j < |ids| :: ids[i] < ids[j]
  }

  predicate HasChildren(node: Node) {
    node.Field? || node.InlineFragment?
  }

  /** The ids in a node can be looked up. */
  predicate NodeInRange(schema: Schema, fragments: nat, node: Node) {
    match node
    case Field(_, f, _) => f < |schema.fields|
    case InlineFragment(t, _) => schema.Has(t)
    case FragmentSpread(f) => f < fragments
    case Typename => true
  }

  /** The type whose selections a field or inline fragment holds. */
  function TypeUnder(schema: Schema, node: Node): (t: TypeId)
    requires HasChildren(node) && NodeInRange(schema, 0, node) && schema.IdsInRange()
    ensures schema.Has(t)
  {
    if node.Field? then schema.fields[node.fieldId].fieldType.id else node.typeId
  }

  /**
   A selection under type `on`: it is a composite type; a field belongs to it, and it is no
   union then; what has a leaf type has no selections.
   */
  predicate Fits(schema: Schema, fragments: nat, node: Node, on: TypeId)
    requires schema.Valid() && schema.Has(on)
  {
    && NodeInRange(schema, fragments, node)
    && schema.IsComposite(on)
    && (node.Field? ==> !on.UnionId? && node.fieldId in schema.FieldsOf(on))
    && (HasChildren(node) && node.selectionSet != [] ==> schema.IsComposite(TypeUnder(schema, node)))
  }

  // ----- A selection set laid in one stretch of the table -----

  /**
   The entries from `lo` to `hi` are the selections `ids`, children of `p` under type `on`,
   each followed by the selections under it.
   */
  ghost predicate Region(schema: Schema, a: Arena, p: Parent, on: TypeId, ids: seq<nat>, lo: nat, hi: nat)
    requires schema.Valid() && schema.Has(on) && |a.nodes| == |a.parents|
    decreases hi - lo, 1
  {
    if ids == [] then lo == hi
    else
      var last := ids[|ids| - 1];
      && lo <= last < hi
      && Region(schema, a, p, on, ids[..|ids| - 1], lo, last)
      && Branch(schema, a, p, on, last, hi)
  }

  /** The entry `id` is a child of `p`; the entries up to `hi` are those under it. */
  ghost predicate Branch(schema: Schema, a: Arena, p: Parent, on: TypeId, id: nat, hi: nat)
    requires schema.Valid() && schema.Has(on) && |a.nodes| == |a.parents|
    decreases hi - id, 0
  {
    && id < hi <= |a.nodes|
    && a.parents[id] == p
    && Fits(schema, |a.fragments|, a.nodes[id], on)
    && if HasChildren(a.nodes[id]) then
         Region(schema, a, LinkTo(a.nodes[id], id), TypeUnder(schema, a.nodes[id]),
                a.nodes[id].selectionSet, id + 1, hi)
       else hi == id + 1
  }

  /** The laid nodes stand in the table, from index `base`. */
  predicate Stands(a: Arena, l: Laid, base: nat) {
    && |a.nodes| == |a.parents| && |l.nodes| == |l.parents| && base + |l.nodes| <= |a.nodes|
    && a.nodes[base..base + |l.nodes|] == l.nodes
    && a.parents[base..base + |l.nodes|] == l.parents
  }

  lemma StandsParts(a: Arena, l: Laid, m: Laid, base: nat)
    requires |l.nodes| == |l.parents| && |m.nodes| == |m.parents|
    requires Stands(a, Laid(l.nodes + m.nodes, l.parents + m.parents, l.ids + m.ids), base)
    ensures Stands(a, l, base) && Stands(a, m, base + |l.nodes|)
  {
    var nodes, parents := l.nodes + m.nodes, l.parents + m.parents;
    assert nodes[..|l.nodes|] == l.nodes && nodes[|l.nodes|..] == m.nodes;
    assert parents[..|l.nodes|] == l.parents && parents[|l.nodes|..] == m.parents;
  }

  lemma StandsRest(a: Arena, node: Node, p: Parent, below: Laid, ids: seq<nat>, base: nat)
    requires |below.nodes| == |below.parents|
    requires Stands(a, Laid([node] + below.nodes, [p] + below.parents, ids), base)
    ensures a.nodes[base] == node && a.parents[base] == p && Stands(a, below, base + 1)
  {
    StandsParts(a, Laid([node], [p], []), below.(ids := ids), base);
  }

  lemma StandsAlone(a: Arena, node: Node, p: Parent, ids: seq<nat>, base: nat)
    requires Stands(a, Laid([node], [p], ids), base)
    ensures base < |a.nodes| && a.nodes[base] == node && a.parents[base] == p
  {
    assert a.nodes[base] == a.nodes[base..base + 1][0] && a.parents[base] == a.parents[base..base + 1][0];
  }

  lemma RegionMore(schema: Schema, a: Arena, p: Parent, on: TypeId, ids: seq<nat>, lo: nat, last: nat, hi: nat)
    requires schema.Valid() && schema.Has(on) && |a.nodes| == |a.parents|
    requires lo <= last && Region(schema, a, p, on, ids, lo, last) && Branch(schema, a, p, on, last, hi)
    ensures Region(schema, a, p, on, ids + [last], lo, hi)
  {
    assert (ids + [last])[..|ids|] == ids;
  }

  /** What is laid out for a selection set is a region. */
  lemma {:induction false} LayoutIsRegion(schema: Schema, heads: seq<ResolvedFragment>, a: Arena, on: TypeId,
                                          items: seq<Ast.Selection>, p: Parent, base: nat)
    requires schema.Valid() && schema.Has(on) && |heads| == |a.fragments|
    requires var r := Layout(schema, heads, on, items, p, base); r.Success? && Stands(a, r.value, base)
    ensures var l := Layout(schema, heads, on, items, p, base).value;
            Region(schema, a, p, on, l.ids, base, base + |l.nodes|)
    decreases items, 0
  {
    hide Layout, LayoutOne, Branch, Region;
    if items == [] {
      LayoutNothing(schema, heads, on, p, base);
      RegionNothing(schema, a, p, on, base);
    } else {
      LeavesHaveNone(schema, heads, on, items, p, base);
      LayoutMore(schema, heads, on, items, p, base);
      var init := Layout(schema, heads, on, items[..|items| - 1], p, base).value;
      var at := base + |init.nodes|;
      var last := LayoutOne(schema, heads, on, items[|items| - 1], p, at).value;
      StandsParts(a, init, last, base);
      LayoutIsRegion(schema, heads, a, on, items[..|items| - 1], p, base);
      LayoutOneIsBranch(schema, heads, a, on, items[|items| - 1], p, at);
      RegionMore(schema, a, p, on, init.ids, base, at, at + |last.nodes|);
    }
  }

  lemma RegionNothing(schema: Schema, a: Arena, p: Parent, on: TypeId, lo: nat)
    requires schema.Valid() && schema.Has(on) && |a.nodes| == |a.parents|
    ensures Region(schema, a, p, on, [], lo, lo)
  {
  }

  lemma {:induction false} LayoutOneIsBranch(schema: Schema, heads: seq<ResolvedFragment>, a: Arena, on: TypeId,
                                             item: Ast.Selection, p: Parent, base: nat)
    requires schema.Valid() && schema.Has(on) && schema.IsComposite(on) && |heads| == |a.fragments|
    requires var r := LayoutOne(schema, heads, on, item, p, base); r.Success? && Stands(a, r.value, base)
    ensures LayoutOne(schema, heads, on, item, p, base).value.ids == [base]
    ensures Branch(schema, a, p, on, base, base + |LayoutOne(schema, heads, on, item, p, base).value.nodes|)
    decreases item, 1
  {
    hide Layout, Stands, Region;
    match item {
      case Field(alias, name, _, _, sub) =>
        if name == TYPENAME_FIELD {
          StandsAlone(a, Typename, p, [base], base);
        } else {
          var f := FindField(schema, schema.FieldsOf(on), name).value;
          var t := schema.fields[f].fieldType.id;
          var below := Layout(schema, heads, t, sub, OfField(base), base + 1).value;
          StandsRest(a, Node.Field(alias, f, below.ids), p, below, [base], base);
          LayoutIsRegion(schema, heads, a, t, sub, OfField(base), base + 1);
          LeavesHaveNone(schema, heads, t, sub, OfField(base), base + 1);
        }
      case InlineFragment(condition, _, sub) =>
        var t := schema.FindType(condition.value).value;
        var below := Layout(schema, heads, t, sub, OfInlineFragment(base), base + 1).value;
        StandsRest(a, Node.InlineFragment(t, below.ids), p, below, [base], base);
        LayoutIsRegion(schema, heads, a, t, sub, OfInlineFragment(base), base + 1);
        LeavesHaveNone(schema, heads, t, sub, OfInlineFragment(base), base + 1);
      case FragmentSpread(name, _) =>
        var f := FindFragment(heads, name).value;
        StandsAlone(a, Node.FragmentSpread(f), p, [base], base);
    }
  }

  lemma LeavesHaveNone(schema: Schema, heads: seq<ResolvedFragment>, on: TypeId, items: seq<Ast.Selection>,
                       p: Parent, base: nat)
    requires schema.Valid() && schema.Has(on)
    requires Layout(schema, heads, on, items, p, base).Success?
    ensures items != [] ==> schema.IsComposite(on)
    ensures Layout(schema, heads, on, items, p, base).value.ids != [] ==> items != []
  {
  }

  // ----- Links and lists -----

  predicate RootsInRange(schema: Schema, a: Arena) {
    && (forall f | 0 <= f < |a.fragments| :: schema.Has(a.fragments[f].on))
    && (forall o | 0 <= o < |a.operations| :: a.operations[o].objectId < |schema.objects|)
  }

  predicate IsRoot(p: Parent) {
    p.OfFragment? || p.OfOperation?
  }

  predicate KnownParent(schema: Schema, a: Arena, p: Parent) {
    && HasParent(a, p)
    && (IsRoot(p) || NodeInRange(schema, |a.fragments|, a.nodes[p.id]))
  }

  /** The type whose selections are listed under a parent. */
  function TypeOfParent(schema: Schema, a: Arena, p: Parent): (t: TypeId)
    requires schema.IdsInRange() && RootsInRange(schema, a) && KnownParent(schema, a, p)
    ensures schema.Has(t)
  {
    match p
    case OfFragment(f) => a.fragments[f].on
    case OfOperation(o) => ObjectId(a.operations[o].objectId)
    case _ => TypeUnder(schema, a.nodes[p.id])
  }

  /**
   A parent link leads back, to a parent that lists the selection, and whose type the
   selection fits; `typed` says whether the latter is known of the children of roots.
   */
  predicate LinkedUp(schema: Schema, a: Arena, k: nat, typed: bool)
    requires schema.Valid() && RootsInRange(schema, a) && k < |a.nodes| == |a.parents|
  {
    var p := a.parents[k];
    && KnownParent(schema, a, p)
    && (IsRoot(p) || p.id < k)
    && k in ChildrenOf(a, p)
    && NodeInRange(schema, |a.fragments|, a.nodes[k])
    && (typed || !IsRoot(p) ==> Fits(schema, |a.fragments|, a.nodes[k], TypeOfParent(schema, a, p)))
  }

  /** A child list is in order, and every child links to the parent. */
  predicate LinkedDown(a: Arena, p: Parent)
    requires HasParent(a, p) && |a.nodes| == |a.parents|
  {
    && Ascending(ChildrenOf(a, p))
    && forall c | c in ChildrenOf(a, p) :: c < |a.nodes| && a.parents[c] == p
  }

  ghost predicate Shaped(schema: Schema, a: Arena, typed: bool)
    requires schema.Valid()
  {
    && |a.nodes| == |a.parents|
    && RootsInRange(schema, a)
    && (forall k: nat | k < |a.nodes| :: LinkedUp(schema, a, k, typed))
    && (forall p | HasParent(a, p) :: LinkedDown(a, p))
  }

  lemma {:induction false} RegionTop(schema: Schema, a: Arena, p: Parent, on: TypeId, ids: seq<nat>, lo: nat, hi: nat)
    requires schema.Valid() && schema.Has(on) && |a.nodes| == |a.parents|
    requires Region(schema, a, p, on, ids, lo, hi)
    ensures lo <= hi && (lo < hi ==> hi <= |a.nodes|)
    ensures Ascending(ids)
    ensures forall c | c in ids :: lo <= c < hi <= |a.nodes| && a.parents[c] == p
    decreases |ids|
  {
    if ids != [] {
      hide Region, Fits;
      var last := ids[|ids| - 1];
      RegionLast(schema, a, p, on, ids, lo, hi);
      RegionTop(schema, a, p, on, ids[..|ids| - 1], lo, last);
      OneMoreAscending(ids[..|ids| - 1], last);
      assert ids == ids[..|ids| - 1] + [last];
    }
  }

  lemma OneMoreAscending(ids: seq<nat>, last: nat)
    requires Ascending(ids) && forall c | c in ids :: c < last
    ensures Ascending(ids + [last])
  {
    assert forall i | 0 <= i < |ids| :: ids[i] in ids;
  }

  lemma RegionLast(schema: Schema, a: Arena, p: Parent, on: TypeId, ids: seq<nat>, lo: nat, hi: nat)
    requires schema.Valid() && schema.Has(on) && |a.nodes| == |a.parents|
    requires Region(schema, a, p, on, ids, lo, hi) && ids != []
    ensures var last := ids[|ids| - 1];
            && lo <= last < hi <= |a.nodes|
            && Region(schema, a, p, on, ids[..|ids| - 1], lo, last)
            && a.parents[last] == p && Fits(schema, |a.fragments|, a.nodes[last], on)
            && (if HasChildren(a.nodes[last]) then
                  Region(schema, a, LinkTo(a.nodes[last], last), TypeUnder(schema, a.nodes[last]),
                         a.nodes[last].selectionSet, last + 1, hi)
                else hi == last + 1)
  {
  }

  /** Every entry of a region is linked up. */
  lemma {:induction false} RegionLinks(schema: Schema, a: Arena, p: Parent, on: TypeId, ids: seq<nat>,
                                       lo: nat, hi: nat, k: nat, typed: bool)
    requires schema.Valid() && schema.Has(on)
    requires |a.nodes| == |a.parents| && RootsInRange(schema, a) && KnownParent(schema, a, p)
    requires typed || !IsRoot(p) ==> on == TypeOfParent(schema, a, p)
    requires Region(schema, a, p, on, ids, lo, hi) && lo <= k < hi <= |a.nodes|
    requires IsRoot(p) || p.id < lo
    requires forall c | c in ids :: c in ChildrenOf(a, p)
    ensures LinkedUp(schema, a, k, typed)
    decreases hi - lo
  {
    if ids != [] {
      hide Region;
      var last := ids[|ids| - 1];
      RegionLast(schema, a, p, on, ids, lo, hi);
      if k < last {
        RegionLinks(schema, a, p, on, ids[..|ids| - 1], lo, last, k, typed);
      } else if k == last {
        assert last in ids;
      } else {
        RegionLinks(schema, a, LinkTo(a.nodes[last], last), TypeUnder(schema, a.nodes[last]),
                    a.nodes[last].selectionSet, last + 1, hi, k, typed);
      }
    }
  }

  /** Every child list in a region is linked down. */
  lemma {:induction false} RegionLists(schema: Schema, a: Arena, p: Parent, on: TypeId, ids: seq<nat>,
                                       lo: nat, hi: nat, q: Parent)
    requires schema.Valid() && schema.Has(on) && |a.nodes| == |a.parents|
    requires Region(schema, a, p, on, ids, lo, hi)
    requires HasParent(a, q) && !IsRoot(q) && lo <= q.id < hi
    ensures LinkedDown(a, q)
    decreases hi - lo
  {
    if ids != [] {
      hide Region, Fits;
      var last := ids[|ids| - 1];
      RegionLast(schema, a, p, on, ids, lo, hi);
      if q.id < last {
        RegionLists(schema, a, p, on, ids[..|ids| - 1], lo, last, q);
      } else {
        assert HasChildren(a.nodes[last]);
        var own := LinkTo(a.nodes[last], last);
        var under := FitsTypeUnder(schema, |a.fragments|, a.nodes[last], on);
        if q.id == last {
          RegionTop(schema, a, own, under, a.nodes[last].selectionSet, last + 1, hi);
        } else {
          RegionLists(schema, a, own, under, a.nodes[last].selectionSet, last + 1, hi, q);
        }
      }
    }
  }

  function FitsTypeUnder(schema: Schema, fragments: nat, node: Node, on: TypeId): (t: TypeId)
    requires schema.Valid() && schema.Has(on) && HasChildren(node) && Fits(schema, fragments, node, on)
    ensures schema.Has(t) && NodeInRange(schema, 0, node) && t == TypeUnder(schema, node)
  {
    TypeUnder(schema, node)
  }

  // ----- The shape is kept -----

  lemma OldListGrows(a: Arena, p: Parent, l: Laid, q: Parent)
    requires |a.nodes| == |a.parents| && |l.nodes| == |l.parents| && HasParent(a, p) && IsRoot(p)
    requires HasParent(a, q) && LinkedDown(a, q) && LinkedDownFrom(Grow(a, p, l), p, l.ids, |a.nodes|)
    ensures HasParent(Grow(a, p, l), q) && LinkedDown(Grow(a, p, l), q)
  {
    var b := Grow(a, p, l);
    assert ChildrenOf(b, q) == if p == q then ChildrenOf(a, q) + l.ids else ChildrenOf(a, q);
    assert forall c | c in ChildrenOf(a, q) :: c < |b.nodes| && b.parents[c] == q;
    if p == q {
      var ids := ChildrenOf(b, q);
      var n := |ChildrenOf(a, q)|;
      forall i, j | 0 <= i < j < |ids| ensures ids[i] < ids[j] {
        assert i < n ==> ids[i] in ChildrenOf(a, q);
        assert j >= n ==> ids[j] == l.ids[j - n] && ids[j] in l.ids;
      }
    }
  }

  predicate LinkedDownFrom(a: Arena, p: Parent, ids: seq<nat>, lo: nat)
    requires |a.nodes| == |a.parents|
  {
    Ascending(ids) && forall c | c in ids :: lo <= c < |a.nodes| && a.parents[c] == p
  }

  /** Laying a selection set under a root keeps the shape. */
  lemma {:induction false} GrowKeepsShape(schema: Schema, a: Arena, p: Parent, on: TypeId, l: Laid, typed: bool)
    requires schema.Valid() && Shaped(schema, a, typed) && HasParent(a, p) && IsRoot(p) && |l.nodes| == |l.parents|
    requires schema.Has(on) && (typed ==> on == TypeOfParent(schema, a, p))
    requires Region(schema, Grow(a, p, l), p, on, l.ids, |a.nodes|, |a.nodes| + |l.nodes|)
    ensures Shaped(schema, Grow(a, p, l), typed)
  {
    hide Region, Fits;
    var b := Grow(a, p, l);
    assert KnownParent(schema, b, p) && TypeOfParent(schema, b, p) == TypeOfParent(schema, a, p);
    RegionTop(schema, b, p, on, l.ids, |a.nodes|, |b.nodes|);
    forall k: nat | k < |b.nodes| ensures LinkedUp(schema, b, k, typed) {
      if k < |a.nodes| {
        assert LinkedUp(schema, a, k, typed);
      } else {
        RegionLinks(schema, b, p, on, l.ids, |a.nodes|, |b.nodes|, k, typed);
      }
    }
    forall q | HasParent(b, q) ensures LinkedDown(b, q) {
      if !IsRoot(q) && q.id >= |a.nodes| {
        RegionLists(schema, b, p, on, l.ids, |a.nodes|, |b.nodes|, q);
      } else {
        assert HasParent(a, q) && LinkedDown(a, q);
        OldListGrows(a, p, l, q);
      }
    }
  }
}
