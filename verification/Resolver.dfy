/**
 The resolver of crates/codegen/src/query.rs: it pushes selections into the table of a
 `Query`, links them to their parents, and adds them to child lists once the selections
 under them are done.  Each method is proved to leave what `Arenas.Layout` lays out.
 */
module Resolver {
  import opened Wrappers
  import Ast
  import opened Schemas
  import opened Arenas

  // ----- Growing step by step -----

  function Pushed(a: Arena, node: Node, p: Parent): Arena {
    a.(nodes := a.nodes + [node], parents := a.parents + [p])
  }

  lemma HeadsStay(a: Arena, p: Parent, l: Laid)
    requires HasParent(a, p)
    ensures Heads(Grow(a, p, l).fragments) == Heads(a.fragments)
    ensures |Grow(a, p, l).nodes| == |a.nodes| + |l.nodes|
    ensures |Grow(a, p, l).fragments| == |a.fragments| && |Grow(a, p, l).operations| == |a.operations|
    ensures Grow(a, p, l).variables == a.variables
  {
  }

  lemma GrowNothing(a: Arena, p: Parent)
    requires HasParent(a, p)
    ensures Grow(a, p, Laid([], [], [])) == a
  {
    assert ChildrenOf(a, p) + [] == ChildrenOf(a, p);
    assert a.nodes + [] == a.nodes && a.parents + [] == a.parents;
    match p
    case OfField(id) => assert a.nodes[id := a.nodes[id]] == a.nodes;
    case OfInlineFragment(id) => assert a.nodes[id := a.nodes[id]] == a.nodes;
    case OfFragment(id) => assert a.fragments[id := a.fragments[id]] == a.fragments;
    case OfOperation(id) => assert a.operations[id := a.operations[id]] == a.operations;
  }

  lemma GrowTwice(a: Arena, p: Parent, l: Laid, m: Laid)
    requires HasParent(a, p)
    ensures HasParent(Grow(a, p, l), p)
    ensures Grow(Grow(a, p, l), p, m) == Grow(a, p, Laid(l.nodes + m.nodes, l.parents + m.parents, l.ids + m.ids))
  {
    var children := ChildrenOf(a, p);
    assert children + l.ids + m.ids == children + (l.ids + m.ids);
    assert a.parents + l.parents + m.parents == a.parents + (l.parents + m.parents);
    var b := Grow(a, p, l);
    assert ChildrenOf(b, p) == children + l.ids;
    match p
    case OfField(id) =>
      assert Grow(b, p, m).nodes == Grow(a, p, Laid(l.nodes + m.nodes, l.parents + m.parents, l.ids + m.ids)).nodes;
    case OfInlineFragment(id) =>
      assert Grow(b, p, m).nodes == Grow(a, p, Laid(l.nodes + m.nodes, l.parents + m.parents, l.ids + m.ids)).nodes;
    case OfFragment(id) =>
      assert a.nodes + l.nodes + m.nodes == a.nodes + (l.nodes + m.nodes);
    case OfOperation(id) =>
      assert a.nodes + l.nodes + m.nodes == a.nodes + (l.nodes + m.nodes);
  }

  /** What a node is called in the links of its children. */
  function LinkTo(node: Node, id: nat): Parent
    requires node.Field? || node.InlineFragment?
  {
    if node.Field? then OfField(id) else OfInlineFragment(id)
  }

  function NodeOver(node: Node, ids: seq<nat>): Node
    requires node.Field? || node.InlineFragment?
  {
    if node.Field? then Field(node.alias, node.fieldId, ids) else InlineFragment(node.typeId, ids)
  }

  /** A node whose children were laid after it, and which then became a child itself. */
  lemma GrowAroundNode(a: Arena, p: Parent, node: Node, below: Laid)
    requires HasParent(a, p) && (node.Field? || node.InlineFragment?) && node.selectionSet == []
    ensures var a1 := Pushed(a, node, p);
            var id := |a.nodes|;
            var own := LinkTo(node, id);
            && HasParent(a1, own) && HasParent(Grow(a1, own, below), p)
            && WithChildren(Grow(a1, own, below), p, [id]) ==
               Grow(a, p, Laid([NodeOver(node, below.ids)] + below.nodes, [p] + below.parents, [id]))
  {
    var a1 := Pushed(a, node, p);
    var id := |a.nodes|;
    assert [] + below.ids == below.ids;
    var a2 := Grow(a1, LinkTo(node, id), below);
    assert a2.nodes == a.nodes + ([NodeOver(node, below.ids)] + below.nodes);
    assert a2.parents == a.parents + ([p] + below.parents);
  }

  /** A node without children. */
  lemma GrowOneNode(a: Arena, p: Parent, node: Node)
    requires HasParent(a, p)
    ensures HasParent(Pushed(a, node, p), p)
    ensures WithChildren(Pushed(a, node, p), p, [|a.nodes|]) == Grow(a, p, Laid([node], [p], [|a.nodes|]))
  {
  }

  function ParentList(links: map<nat, Parent>, n: nat): (ps: seq<Parent>)
    requires forall i | 0 <= i < n :: i in links
    ensures |ps| == n
    ensures forall i | 0 <= i < n :: ps[i] == links[i]
  {
    if n == 0 then [] else ParentList(links, n - 1) + [links[n - 1]]
  }

  class Query {
    var fragments: seq<ResolvedFragment>
    var operations: seq<ResolvedOperation>
    var selectionParentIdx: map<nat, Parent>
    var selections: seq<Node>
    var variables: seq<ResolvedVariable>

    /** Every selection has a parent link, and nothing else has. */
    ghost predicate Valid()
      reads this
    {
      forall i: nat :: i in selectionParentIdx <==> i < |selections|
    }

    ghost function Abs(): Arena
      requires Valid()
      reads this
    {
      Arena(fragments, operations, selections, ParentList(selectionParentIdx, |selections|), variables)
    }

    constructor ()
      ensures Valid() && Abs() == Arena([], [], [], [], [])
    {
      fragments, operations, selectionParentIdx, selections, variables := [], [], map[], [], [];
    }

    method PushSelection(node: Node, parent: Parent) returns (id: nat)
      requires Valid()
      modifies this
      ensures Valid() && id == |old(Abs()).nodes|
      ensures Abs() == Pushed(old(Abs()), node, parent)
    {
      id := |selections|;
      selections := selections + [node];
      selectionParentIdx := selectionParentIdx[id := parent];
      assert ParentList(selectionParentIdx, |selections|) ==
             old(ParentList(selectionParentIdx, |selections|)) + [parent];
    }

    method AddToSelectionSet(p: Parent, id: nat)
      requires Valid() && HasParent(Abs(), p)
      modifies this
      ensures Valid() && Abs() == WithChildren(old(Abs()), p, [id])
    {
      match p {
        case OfField(i) =>
          var f := selections[i];
          selections := selections[i := Field(f.alias, f.fieldId, f.selectionSet + [id])];
        case OfInlineFragment(i) =>
          var f := selections[i];
          selections := selections[i := InlineFragment(f.typeId, f.selectionSet + [id])];
        case OfFragment(i) =>
          fragments := fragments[i := fragments[i].(selectionSet := fragments[i].selectionSet + [id])];
        case OfOperation(i) =>
          operations := operations[i := operations[i].(selectionSet := operations[i].selectionSet + [id])];
      }
    }

    method ResolveSelection(schema: Schema, on: TypeId, items: seq<Ast.Selection>, p: Parent)
      returns (r: Result<(), ResolveError>)
      requires Valid() && schema.Valid() && schema.Has(on) && HasParent(Abs(), p)
      modifies this
      ensures Valid()
      ensures match Layout(schema, Heads(old(Abs()).fragments), on, items, p, |old(Abs()).nodes|)
              case Failure(e) => r == Failure(e)
              case Success(l) => r == Success(()) && Abs() == Grow(old(Abs()), p, l)
      decreases items, 2
    {
      GrowNothing(Abs(), p);
      if schema.IsComposite(on) {
        r := ResolveItems(schema, on, items, p);
      } else if items != [] {
        return Failure(SelectionOnLeaf);
      } else {
        return Success(());
      }
    }

    /** The loops of `resolve_object_selection` and `resolve_union_selection`. */
    method ResolveItems(schema: Schema, on: TypeId, items: seq<Ast.Selection>, p: Parent)
      returns (r: Result<(), ResolveError>)
      requires Valid() && schema.Valid() && schema.Has(on) && schema.IsComposite(on) && HasParent(Abs(), p)
      modifies this
      ensures Valid()
      ensures match Layout(schema, Heads(old(Abs()).fragments), on, items, p, |old(Abs()).nodes|)
              case Failure(e) => r == Failure(e)
              case Success(l) => r == Success(()) && Abs() == Grow(old(Abs()), p, l)
      decreases items, 1
    {
      hide Layout, LayoutOne, Grow, Heads, HasParent, Valid, Abs;
      ghost var start := Abs();
      ghost var heads, base := Heads(start.fragments), |start.nodes|;
      LayoutNothing(schema, heads, on, p, base);
      GrowNothing(start, p);
      ghost var done := Laid([], [], []);
      for i := 0 to |items|
        invariant Valid()
        invariant Layout(schema, heads, on, items[..i], p, base) == Success(done)
        invariant Abs() == Grow(start, p, done) && HasParent(Abs(), p)
      {
        OneItemMore(schema, start, on, items, i, p, done);
        r := ResolveItem(schema, on, items[i], p);
        if r.Failure? {
          return;
        }
        done := And(done, LayoutOne(schema, heads, on, items[i], p, base + |done.nodes|).value);
      }
      assert items[..|items|] == items;
      return Success(());
    }

    method ResolveItem(schema: Schema, on: TypeId, item: Ast.Selection, p: Parent)
      returns (r: Result<(), ResolveError>)
      requires Valid() && schema.Valid() && schema.Has(on) && schema.IsComposite(on) && HasParent(Abs(), p)
      modifies this
      ensures Valid()
      ensures match LayoutOne(schema, Heads(old(Abs()).fragments), on, item, p, |old(Abs()).nodes|)
              case Failure(e) => r == Failure(e)
              case Success(l) => r == Success(()) && Abs() == Grow(old(Abs()), p, l)
      decreases item, 4
    {
      hide Layout, Grow, Heads, HasParent, ParentList, FindField, FindFragment;
      match item {
        case Field(alias, name, _, _, sub) =>
          if name == TYPENAME_FIELD {
            AddLeaf(Typename, p);
            return Success(());
          }
          if on.UnionId? {
            return Failure(FieldOnUnion);
          }
          var f := FindField(schema, schema.FieldsOf(on), name);
          if f.None? {
            return Failure(UnknownField(name));
          }
          r := AddAround(schema, Field(alias, f.value, []), schema.fields[f.value].fieldType.id, sub, p);
        case InlineFragment(condition, _, sub) =>
          if condition.None? {
            return Failure(MissingTypeCondition);
          }
          var t := schema.FindType(condition.value);
          if t.None? {
            return Failure(UnknownType(condition.value));
          }
          r := AddAround(schema, InlineFragment(t.value, []), t.value, sub, p);
        case FragmentSpread(name, _) =>
          var f := FindFragment(fragments, name);
          SameHeads(fragments, name);
          if f.None? {
            return Failure(UnknownFragment(name));
          }
          AddLeaf(FragmentSpread(f.value), p);
          return Success(());
      }
    }

    /** A selection without selections of its own. */
    method AddLeaf(node: Node, p: Parent)
      requires Valid() && HasParent(Abs(), p)
      modifies this
      ensures Valid()
      ensures Abs() == Grow(old(Abs()), p, Laid([node], [p], [|old(Abs()).nodes|]))
    {
      GrowOneNode(Abs(), p, node);
      var id := PushSelection(node, p);
      AddToSelectionSet(p, id);
    }

    /** A field or inline fragment: pushed first, added to its parent once what is under it is resolved. */
    method AddAround(schema: Schema, node: Node, on: TypeId, sub: seq<Ast.Selection>, p: Parent)
      returns (r: Result<(), ResolveError>)
      requires Valid() && schema.Valid() && schema.Has(on) && HasParent(Abs(), p)
      requires (node.Field? || node.InlineFragment?) && node.selectionSet == []
      modifies this
      ensures Valid()
      ensures var id := |old(Abs()).nodes|;
              match Layout(schema, Heads(old(Abs()).fragments), on, sub, LinkTo(node, id), id + 1)
              case Failure(e) => r == Failure(e)
              case Success(below) =>
                && r == Success(())
                && Abs() ==
                   Grow(old(Abs()), p, Laid([NodeOver(node, below.ids)] + below.nodes, [p] + below.parents, [id]))
      decreases sub, 3
    {
      hide Layout, Grow, Heads, ParentList, Valid, Abs;
      ghost var start := Abs();
      ghost var laid := Layout(schema, Heads(start.fragments), on, sub, LinkTo(node, |start.nodes|), |start.nodes| + 1);
      if laid.Success? {
        GrowAroundNode(start, p, node, laid.value);
      }
      var id := PushSelection(node, p);
      r := ResolveSelection(schema, on, sub, LinkTo(node, id));
      if r.Success? {
        AddToSelectionSet(p, id);
      }
    }
  }

  function And(l: Laid, m: Laid): Laid {
    Laid(l.nodes + m.nodes, l.parents + m.parents, l.ids + m.ids)
  }

  /** One item more resolved is one item more laid out; the first error is the error of the whole. */
  lemma OneItemMore(schema: Schema, start: Arena, on: TypeId, items: seq<Ast.Selection>, i: nat, p: Parent, done: Laid)
    requires schema.Valid() && schema.Has(on) && schema.IsComposite(on) && i < |items| && HasParent(start, p)
    requires Layout(schema, Heads(start.fragments), on, items[..i], p, |start.nodes|) == Success(done)
    ensures var now, heads := Grow(start, p, done), Heads(start.fragments);
            && HasParent(now, p) && Heads(now.fragments) == heads && |now.nodes| == |start.nodes| + |done.nodes|
            && var one := LayoutOne(schema, heads, on, items[i], p, |now.nodes|);
            && (one.Failure? ==> Layout(schema, heads, on, items, p, |start.nodes|) == Failure(one.error))
            && (one.Success? ==>
                  && Layout(schema, heads, on, items[..i + 1], p, |start.nodes|) == Success(And(done, one.value))
                  && Grow(now, p, one.value) == Grow(start, p, And(done, one.value))
                  && HasParent(Grow(now, p, one.value), p))
  {
    hide Layout, LayoutOne, Grow, Heads, HasParent;
    var heads, base := Heads(start.fragments), |start.nodes|;
    HeadsStay(start, p, done);
    GrowKeepsParent(start, p, done);
    assert items[..i + 1][..i] == items[..i];
    LayoutMore(schema, heads, on, items[..i + 1], p, base);
    match LayoutOne(schema, heads, on, items[i], p, base + |done.nodes|)
    case Failure(e) => LayoutFails(schema, heads, on, items, i + 1, p, base);
    case Success(l) =>
      GrowTwice(start, p, done, l);
      GrowKeepsParent(start, p, And(done, l));
  }

  lemma LayoutNothing(schema: Schema, heads: seq<ResolvedFragment>, on: TypeId, p: Parent, base: nat)
    requires schema.Valid() && schema.Has(on)
    ensures Layout(schema, heads, on, [], p, base) == Success(Laid([], [], []))
  {
  }

  lemma GrowKeepsParent(a: Arena, p: Parent, l: Laid)
    requires HasParent(a, p)
    ensures HasParent(Grow(a, p, l), p)
  {
  }

  /** Looking up a fragment needs the heads only. */
  lemma {:induction false} SameHeads(fragments: seq<ResolvedFragment>, name: string)
    ensures FindFragment(Heads(fragments), name) == FindFragment(fragments, name)
    decreases |fragments|
  {
    if fragments != [] {
      SameHeads(fragments[..|fragments| - 1], name);
      assert Heads(fragments)[..|fragments| - 1] == Heads(fragments[..|fragments| - 1]);
    }
  }

  lemma LayoutMore(schema: Schema, heads: seq<ResolvedFragment>, on: TypeId, items: seq<Ast.Selection>, p: Parent,
                   base: nat)
    requires schema.Valid() && schema.Has(on) && schema.IsComposite(on) && items != []
    ensures var init := Layout(schema, heads, on, items[..|items| - 1], p, base);
            Layout(schema, heads, on, items, p, base) ==
            if init.Failure? then init
            else
              match LayoutOne(schema, heads, on, items[|items| - 1], p, base + |init.value.nodes|)
              case Failure(e) => Failure(e)
              case Success(l) =>
                Success(Laid(init.value.nodes + l.nodes, init.value.parents + l.parents, init.value.ids + l.ids))
  {
  }

  /** The first error is the error. */
  lemma {:induction false} LayoutFails(schema: Schema, heads: seq<ResolvedFragment>, on: TypeId,
                                       items: seq<Ast.Selection>, i: nat, p: Parent, base: nat)
    requires schema.Valid() && schema.Has(on) && schema.IsComposite(on) && i <= |items|
    requires Layout(schema, heads, on, items[..i], p, base).Failure?
    ensures Layout(schema, heads, on, items, p, base) == Layout(schema, heads, on, items[..i], p, base)
    decreases |items|
  {
    if i == |items| {
      assert items[..i] == items;
    } else {
      var init := items[..|items| - 1];
      assert init[..i] == items[..i];
      LayoutFails(schema, heads, on, init, i, p, base);
    }
  }
}
