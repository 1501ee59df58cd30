/**
 Reading a resolved query back out of its flat table: what was resolved is what was written.

 `Read` takes a list of selection ids and follows child lists through the table, and builds
 the trees that the entries stand for; `Written` is what a selection set of the
 document keeps of itself when it is resolved.  Both are the same for everything laid out.
 */
module ReadBack {
  import opened Wrappers
  import Ast
  import opened Schemas
  import opened Arenas
  import opened Resolver
  import opened ArenaShape

  /** A selection with its names only. */
  datatype Tree =
    | TField(alias: Option<string>, name: string, children: seq<Tree>)
    | TTypename
    | TInline(typeName: string, children: seq<Tree>)
    | TSpread(fragment: string)

  /** The tree of a selection as written; `__typename` has no alias, as resolving drops it. */
  function Written(item: Ast.Selection): Tree
    decreases item, 0
  {
    match item
    case Field(alias, name, _, _, sub) =>
      if name == TYPENAME_FIELD then TTypename else TField(alias, name, WrittenAll(sub))
    case InlineFragment(condition, _, sub) =>
      TInline(if condition.Some? then condition.value else "", WrittenAll(sub))
    case FragmentSpread(name, _) => TSpread(name)
  }

  function WrittenAll(items: seq<Ast.Selection>): (ts: seq<Tree>)
    ensures |ts| == |items|
    decreases items, 1
  {
    if items == [] then [] else WrittenAll(items[..|items| - 1]) + [Written(items[|items| - 1])]
  }

  // ----- Reading -----

  function First(ids: seq<nat>, none: nat): nat {
    if ids == [] then none else ids[0]
  }

  predicate InTable(a: Arena, ids: seq<nat>) {
    Ascending(ids) && forall c | c in ids :: c < |a.nodes|
  }

  lemma InitInTable(a: Arena, ids: seq<nat>)
    requires InTable(a, ids) && ids != []
    ensures var init, n := ids[..|ids| - 1], |a.nodes|;
            && InTable(a, init) && ids[0] <= ids[|ids| - 1] < n
            && First(ids, n) <= First(init, n) <= n
  {
    assert ids[|ids| - 1] in ids;
    assert forall c | c in ids[..|ids| - 1] :: c in ids;
  }

  lemma ChildrenBehind(schema: Schema, a: Arena, typed: bool, id: nat)
    requires schema.Valid() && Shaped(schema, a, typed) && id < |a.nodes|
    ensures NodeInRange(schema, |a.fragments|, a.nodes[id])
    ensures HasChildren(a.nodes[id]) ==>
              && InTable(a, a.nodes[id].selectionSet)
              && forall c | c in a.nodes[id].selectionSet :: id < c
  {
    hide Fits;
    assert LinkedUp(schema, a, id, typed);
    if HasChildren(a.nodes[id]) {
      var own := LinkTo(a.nodes[id], id);
      assert LinkedDown(a, own);
      forall c | c in a.nodes[id].selectionSet ensures id < c {
        assert LinkedUp(schema, a, c, typed);
      }
    }
  }

  /** The tree of a selection in the table. */
  ghost function Read(schema: Schema, a: Arena, typed: bool, id: nat): Tree
    requires schema.Valid() && Shaped(schema, a, typed) && id < |a.nodes|
    decreases |a.nodes| - id, 0, 0
  {
    hide Shaped;
    ChildrenBehind(schema, a, typed, id);
    match a.nodes[id]
    case Field(alias, f, ids) =>
      assert ids != [] ==> ids[0] in ids;
      TField(alias, schema.fields[f].name, ReadAll(schema, a, typed, ids))
    case InlineFragment(t, ids) =>
      assert ids != [] ==> ids[0] in ids;
      TInline(schema.TypeName(t), ReadAll(schema, a, typed, ids))
    case FragmentSpread(f) => TSpread(a.fragments[f].name)
    case Typename => TTypename
  }

  ghost function ReadAll(schema: Schema, a: Arena, typed: bool, ids: seq<nat>): (ts: seq<Tree>)
    requires schema.Valid() && Shaped(schema, a, typed) && InTable(a, ids)
    ensures |ts| == |ids|
    decreases |a.nodes| - First(ids, |a.nodes|), 1, |ids|
  {
    hide Shaped;
    if ids == [] then []
    else
      InitInTable(a, ids);
      ReadAll(schema, a, typed, ids[..|ids| - 1]) + [Read(schema, a, typed, ids[|ids| - 1])]
  }

  /** What was read stays so when the table grows. */
  lemma {:induction false} ReadStays(schema: Schema, a: Arena, b: Arena, typed: bool, id: nat)
    requires schema.Valid() && Shaped(schema, a, typed) && Shaped(schema, b, typed)
    requires a.nodes <= b.nodes && Heads(a.fragments) == Heads(b.fragments) && id < |a.nodes|
    ensures Read(schema, b, typed, id) == Read(schema, a, typed, id)
    decreases |a.nodes| - id, 0, 0
  {
    hide Shaped;
    ChildrenBehind(schema, a, typed, id);
    ChildrenBehind(schema, b, typed, id);
    assert b.nodes[id] == a.nodes[id];
    match a.nodes[id]
    case Field(_, _, ids) =>
      assert ids != [] ==> ids[0] in ids;
      ReadAllStays(schema, a, b, typed, ids);
    case InlineFragment(_, ids) =>
      assert ids != [] ==> ids[0] in ids;
      ReadAllStays(schema, a, b, typed, ids);
    case FragmentSpread(f) =>
      assert Heads(a.fragments)[f] == Heads(b.fragments)[f];
    case Typename =>
  }

  lemma {:induction false} ReadAllStays(schema: Schema, a: Arena, b: Arena, typed: bool, ids: seq<nat>)
    requires schema.Valid() && Shaped(schema, a, typed) && Shaped(schema, b, typed)
    requires a.nodes <= b.nodes && Heads(a.fragments) == Heads(b.fragments) && InTable(a, ids)
    ensures InTable(b, ids) && ReadAll(schema, b, typed, ids) == ReadAll(schema, a, typed, ids)
    decreases |a.nodes| - First(ids, |a.nodes|), 1, |ids|
  {
    hide Shaped;
    if ids != [] {
      InitInTable(a, ids);
      InitInTable(b, ids);
      ReadAllStays(schema, a, b, typed, ids[..|ids| - 1]);
      ReadStays(schema, a, b, typed, ids[|ids| - 1]);
    }
  }

  lemma LaidInTable(schema: Schema, heads: seq<ResolvedFragment>, a: Arena, on: TypeId,
                    items: seq<Ast.Selection>, p: Parent, base: nat)
    requires schema.Valid() && schema.Has(on) && |heads| == |a.fragments|
    requires var r := Layout(schema, heads, on, items, p, base); r.Success? && Stands(a, r.value, base)
    ensures InTable(a, Layout(schema, heads, on, items, p, base).value.ids)
  {
    hide Layout, Region;
    var l := Layout(schema, heads, on, items, p, base).value;
    LayoutIsRegion(schema, heads, a, on, items, p, base);
    RegionTop(schema, a, p, on, l.ids, base, base + |l.nodes|);
  }

  /** What was laid out reads as it was written. */
  lemma {:induction false} LaidReadsAsWritten(schema: Schema, a: Arena, typed: bool, on: TypeId,
                                              items: seq<Ast.Selection>, p: Parent, base: nat)
    requires schema.Valid() && schema.Has(on) && Shaped(schema, a, typed)
    requires var r := Layout(schema, Heads(a.fragments), on, items, p, base); r.Success? && Stands(a, r.value, base)
    ensures var ids := Layout(schema, Heads(a.fragments), on, items, p, base).value.ids;
            InTable(a, ids) && ReadAll(schema, a, typed, ids) == WrittenAll(items)
    decreases items, 0
  {
    hide Shaped, Layout, LayoutOne, InTable, Read, Written, Stands;
    var heads := Heads(a.fragments);
    LaidInTable(schema, heads, a, on, items, p, base);
    if items == [] {
      LayoutNothing(schema, heads, on, p, base);
    } else {
      LeavesHaveNone(schema, heads, on, items, p, base);
      LayoutMore(schema, heads, on, items, p, base);
      var init := Layout(schema, heads, on, items[..|items| - 1], p, base).value;
      var at := base + |init.nodes|;
      var last := LayoutOne(schema, heads, on, items[|items| - 1], p, at).value;
      StandsParts(a, init, last, base);
      LaidReadsAsWritten(schema, a, typed, on, items[..|items| - 1], p, base);
      OneReadsAsWritten(schema, a, typed, on, items[|items| - 1], p, at);
      ReadOneMore(schema, a, typed, init.ids, at);
    }
  }

  lemma ReadOneMore(schema: Schema, a: Arena, typed: bool, ids: seq<nat>, id: nat)
    requires schema.Valid() && Shaped(schema, a, typed) && InTable(a, ids) && InTable(a, ids + [id]) && id < |a.nodes|
    ensures ReadAll(schema, a, typed, ids + [id]) == ReadAll(schema, a, typed, ids) + [Read(schema, a, typed, id)]
  {
    hide Shaped, Read;
    assert (ids + [id])[..|ids|] == ids;
  }

  lemma {:induction false} OneReadsAsWritten(schema: Schema, a: Arena, typed: bool, on: TypeId,
                                             item: Ast.Selection, p: Parent, base: nat)
    requires schema.Valid() && schema.Has(on) && schema.IsComposite(on) && Shaped(schema, a, typed)
    requires var r := LayoutOne(schema, Heads(a.fragments), on, item, p, base); r.Success? && Stands(a, r.value, base)
    ensures base < |a.nodes| && Read(schema, a, typed, base) == Written(item)
    decreases item, 1
  {
    hide Shaped, Layout, Region, Heads, Stands, InTable;
    var heads := Heads(a.fragments);
    match item {
      case Field(alias, name, _, _, sub) =>
        if name == TYPENAME_FIELD {
          StandsAlone(a, Typename, p, [base], base);
        } else {
          var f := FindField(schema, schema.FieldsOf(on), name).value;
          var t := schema.fields[f].fieldType.id;
          var below := Layout(schema, heads, t, sub, OfField(base), base + 1).value;
          StandsRest(a, Node.Field(alias, f, below.ids), p, below, [base], base);
          LaidReadsAsWritten(schema, a, typed, t, sub, OfField(base), base + 1);
        }
      case InlineFragment(condition, _, sub) =>
        var t := schema.FindType(condition.value).value;
        var below := Layout(schema, heads, t, sub, OfInlineFragment(base), base + 1).value;
        StandsRest(a, Node.InlineFragment(t, below.ids), p, below, [base], base);
        LaidReadsAsWritten(schema, a, typed, t, sub, OfInlineFragment(base), base + 1);
      case FragmentSpread(name, _) =>
        var f := FindFragment(heads, name).value;
        SameHeads(a.fragments, name);
        StandsAlone(a, Node.FragmentSpread(f), p, [base], base);
    }
  }
}
