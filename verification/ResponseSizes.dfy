/** When the response structs have finite size: boxing sees a fragment inside its own tree, and nothing beyond. */
module ResponseSizes {
  import opened TypeQualifiers
  import opened Schemas
  import opened Arenas
  import opened ArenaShape
  import opened ReadBack
  import opened Walks
  import opened UsedTypes
  import opened Expansion
  import opened ExpandedSelections
  import opened VariantContents

  // ----- What a struct holds by value -----

  predicate HoldsFragment(cx: Context, f: nat, q: Origin)
    requires Ready(cx) && f < |cx.a.fragments|
  {
    q == FromRoot(OfFragment(f)) && !SpreadRecursive(cx, f)
  }

  /** The struct field for one selection holds `q`: without a list or a box around it. */
  predicate SelectionHolds(cx: Context, id: nat, t: TypeId, q: Origin)
    requires Ready(cx) && id < |cx.a.nodes|
  {
    NodeAt(cx.schema, cx.a, id);
    match cx.a.nodes[id]
    case Field(_, f, _) =>
      q == FromField(id) && IsCompositeField(cx, id) && List !in cx.schema.fields[f].fieldType.qualifiers
    case FragmentSpread(f) => cx.a.fragments[f].on == t && HoldsFragment(cx, f, q)
    case _ => false
  }

  /** The enum holds the struct of one of its variants. */
  predicate VariantHolds(cx: Context, ids: seq<nat>, t: TypeId, q: Origin)
    requires Ready(cx) && InTable(cx.a, ids) && cx.schema.Has(t)
  {
    exists k | 0 <= k < |Variants(cx, t)| ::
      && Matching(cx, ids, t, Variants(cx, t)[k]) != []
      && q == FromVariant(Matching(cx, ids, t, Variants(cx, t)[k]), Variants(cx, t)[k])
  }

  predicate AnyHolds(cx: Context, ids: seq<nat>, t: TypeId, q: Origin)
    requires Ready(cx) && InTable(cx.a, ids)
  {
    exists k | 0 <= k < |ids| :: (assert ids[k] in ids; SelectionHolds(cx, ids[k], t, q))
  }

  /** What is made for the selections `ids` on type `t` holds `q`; an alias is what it stands for. */
  predicate SetHolds(cx: Context, ids: seq<nat>, t: TypeId, q: Origin)
    requires Ready(cx) && InTable(cx.a, ids) && cx.schema.Has(t)
  {
    if Lone(cx, ids) then
      assert ids[0] in ids;
      NodeAt(cx.schema, cx.a, ids[0]);
      HoldsFragment(cx, cx.a.nodes[ids[0]].fragmentId, q)
    else AnyHolds(cx, ids, t, q) || VariantHolds(cx, ids, t, q)
  }

  /**
   The struct of a variant holds what its spreads stand for, and what is under the first
   selection if there is an inline fragment; but an alias is nothing else.
   */
  predicate EachHolds(cx: Context, ms: seq<nat>, v: TypeId, q: Origin)
    requires Ready(cx) && AllNodes(cx.a, ms) && ms != [] && cx.schema.Has(v)
  {
    if AliasBelow(cx, ms, ms[0]) then
      NodeAt(cx.schema, cx.a, ms[0]);
      SetHolds(cx, cx.a.nodes[ms[0]].Subselection(), v, q)
    else exists k | 0 <= k < |ms| :: OneHolds(cx, ms[k], ms[0], v, q)
  }

  predicate OneHolds(cx: Context, m: nat, first: nat, v: TypeId, q: Origin)
    requires Ready(cx) && m < |cx.a.nodes| && first < |cx.a.nodes| && cx.schema.Has(v)
  {
    NodeAt(cx.schema, cx.a, m);
    NodeAt(cx.schema, cx.a, first);
    match cx.a.nodes[m]
    case InlineFragment(_, _) => SetHolds(cx, cx.a.nodes[first].Subselection(), v, q)
    case FragmentSpread(f) => HoldsFragment(cx, f, q)
    case _ => false
  }

  /** What a variant's struct holds comes from one of its selections. */
  lemma OneOf(cx: Context, ms: seq<nat>, v: TypeId, q: Origin) returns (k: nat)
    requires Ready(cx) && AllNodes(cx.a, ms) && ms != [] && cx.schema.Has(v) && EachHolds(cx, ms, v, q)
    ensures k < |ms| && OneHolds(cx, ms[k], ms[0], v, q)
  {
    hide Ready, Lone, SetHolds;
    k :| k < |ms| && (if AliasBelow(cx, ms, ms[0]) then cx.a.nodes[ms[k]].InlineFragment?
                      else OneHolds(cx, ms[k], ms[0], v, q));
  }

  predicate Holds(cx: Context, o: Origin, q: Origin)
    requires Ready(cx) && OriginOk(cx, o)
  {
    match o
    case FromRoot(root) =>
      RootKnown(cx, root);
      SetHolds(cx, RootSelections(cx, root).0, RootSelections(cx, root).1, q)
    case FromField(id) =>
      NodeAt(cx.schema, cx.a, id);
      SetHolds(cx, cx.a.nodes[id].selectionSet, cx.schema.fields[cx.a.nodes[id].fieldId].fieldType.id, q)
    case FromVariant(ms, v) => EachHolds(cx, ms, v, q)
  }

  // ----- Within one expansion, what is held comes later in the table -----

  function Position(o: Origin): int {
    match o
    case FromRoot(_) => -1
    case FromField(id) => id
    case FromVariant(ms, _) => if ms == [] then -1 else ms[0]
  }

  /** What may be held: a fragment that is not boxed, or a struct behind position `after`. */
  predicate Lower(cx: Context, q: Origin, after: int)
    requires Ready(cx)
  {
    && OriginOk(cx, q)
    && match q
       case FromRoot(root) => root.OfFragment? && !SpreadRecursive(cx, root.id)
       case _ => after < Position(q) < |cx.a.nodes|
  }

  lemma FragmentIsLower(cx: Context, f: nat, q: Origin, after: int)
    requires Ready(cx) && f < |cx.a.fragments| && HoldsFragment(cx, f, q)
    ensures Lower(cx, q, after)
  {
  }

  lemma SetHoldsLower(cx: Context, ids: seq<nat>, t: TypeId, q: Origin, after: int)
    requires Ready(cx) && InTable(cx.a, ids) && cx.schema.Has(t) && SetHolds(cx, ids, t, q)
    requires after < First(ids, |cx.a.nodes|)
    ensures Lower(cx, q, after)
  {
    hide Walkable, SelectsNoInputs, RootsInRange, Matching, Variants;
    if Lone(cx, ids) {
      assert ids[0] in ids;
      NodeAt(cx.schema, cx.a, ids[0]);
      FragmentIsLower(cx, cx.a.nodes[ids[0]].fragmentId, q, after);
    } else if AnyHolds(cx, ids, t, q) {
      var k :| 0 <= k < |ids| && ids[k] in ids && SelectionHolds(cx, ids[k], t, q);
      FirstIsFirst(cx.a, ids, ids[k]);
      NodeAt(cx.schema, cx.a, ids[k]);
    } else {
      var k :| && 0 <= k < |Variants(cx, t)| && Matching(cx, ids, t, Variants(cx, t)[k]) != []
               && q == FromVariant(Matching(cx, ids, t, Variants(cx, t)[k]), Variants(cx, t)[k]);
      MatchingFirst(cx, ids, t, Variants(cx, t)[k]);
    }
  }

  lemma HoldsLower(cx: Context, o: Origin, q: Origin)
    requires Ready(cx) && OriginOk(cx, o) && Holds(cx, o, q)
    ensures Lower(cx, q, Position(o))
  {
    hide SetHolds, Lower;
    match o
    case FromRoot(root) =>
      RootKnown(cx, root);
      var (ids, t) := RootSelections(cx, root);
      assert First(ids, |cx.a.nodes|) >= 0;
      SetHoldsLower(cx, ids, t, q, -1);
    case FromField(id) =>
      NodeAt(cx.schema, cx.a, id);
      SetHoldsLower(cx, cx.a.nodes[id].selectionSet, cx.schema.fields[cx.a.nodes[id].fieldId].fieldType.id, q, id);
    case FromVariant(ms, v) =>
      var k := OneOf(cx, ms, v, q);
      NodeAt(cx.schema, cx.a, ms[k]);
      NodeAt(cx.schema, cx.a, ms[0]);
      if cx.a.nodes[ms[k]].InlineFragment? {
        SetHoldsLower(cx, cx.a.nodes[ms[0]].Subselection(), v, q, ms[0]);
      } else {
        FragmentIsLower(cx, cx.a.nodes[ms[k]].fragmentId, q, ms[0]);
      }
  }

  // ----- Holding over several steps -----

  ghost predicate HoldWalk(cx: Context, p: seq<Origin>)
    requires Ready(cx)
  {
    && (forall i | 0 <= i < |p| :: OriginOk(cx, p[i]))
    && (forall i | 0 <= i < |p| - 1 :: Holds(cx, p[i], p[i + 1]))
  }

  /** The struct holds itself by value, however indirectly, so that it has no finite size. */
  ghost predicate HoldsItself(cx: Context, o: Origin)
    requires Ready(cx)
  {
    exists p: seq<Origin> :: |p| >= 2 && HoldWalk(cx, p) && p[0] == p[|p| - 1] == o
  }

  predicate NoRootInside(p: seq<Origin>) {
    forall i | 0 < i < |p| - 1 :: !p[i].FromRoot?
  }

  /** Within its own expansion, the struct of fragment `f` holds that of fragment `g`. */
  ghost predicate FragmentHolds(cx: Context, f: nat, g: nat)
    requires Ready(cx)
  {
    exists p: seq<Origin> ::
      && |p| >= 2 && HoldWalk(cx, p) && NoRootInside(p)
      && p[0] == FromRoot(OfFragment(f)) && p[|p| - 1] == FromRoot(OfFragment(g))
  }

  ghost predicate FragmentWalk(cx: Context, c: seq<nat>)
    requires Ready(cx)
  {
    forall i | 0 <= i < |c| - 1 :: FragmentHolds(cx, c[i], c[i + 1])
  }

  /** Fragments hold each other in a cycle. */
  ghost predicate FragmentCycle(cx: Context)
    requires Ready(cx)
  {
    exists c: seq<nat> :: |c| >= 2 && FragmentWalk(cx, c) && c[0] == c[|c| - 1]
  }

  lemma WalkParts(cx: Context, p: seq<Origin>, i: nat, j: nat)
    requires Ready(cx) && HoldWalk(cx, p) && i <= j <= |p|
    ensures HoldWalk(cx, p[i..j])
  {
    hide Ready, OriginOk, Holds;
    assert forall k | 0 <= k < j - i :: p[i..j][k] == p[i + k];
  }

  lemma WalksJoin(cx: Context, p: seq<Origin>, q: seq<Origin>)
    requires Ready(cx) && HoldWalk(cx, p) && HoldWalk(cx, q) && p != [] && q != [] && p[|p| - 1] == q[0]
    ensures HoldWalk(cx, p + q[1..])
  {
    hide Ready, OriginOk, Holds;
    var r := p + q[1..];
    forall i | 0 <= i < |r| - 1 ensures Holds(cx, r[i], r[i + 1]) {
      if i >= |p| - 1 {
        assert r[i] == q[i - (|p| - 1)] && r[i + 1] == q[i - (|p| - 1) + 1];
      }
    }
  }

  /** Away from roots, a walk goes on in the table. */
  lemma {:induction false} WalkGoesOn(cx: Context, p: seq<Origin>)
    requires Ready(cx) && HoldWalk(cx, p) && |p| >= 2 && forall i | 0 < i < |p| :: !p[i].FromRoot?
    ensures Position(p[0]) < Position(p[|p| - 1])
    decreases |p|
  {
    hide Ready, OriginOk, Holds;
    HoldsLower(cx, p[0], p[1]);
    if |p| > 2 {
      WalkParts(cx, p, 1, |p|);
      WalkGoesOn(cx, p[1..]);
    }
  }

  /** What is held and is a root is a fragment. */
  lemma HeldRoot(cx: Context, p: seq<Origin>, i: nat)
    requires Ready(cx) && HoldWalk(cx, p) && 0 < i < |p| && p[i].FromRoot?
    ensures p[i].root.OfFragment? && p[i].root.id < |cx.a.fragments| && !SpreadRecursive(cx, p[i].root.id)
  {
    HoldsLower(cx, p[i - 1], p[i - 1 + 1]);
    hide Ready, Holds;
  }

  /** A walk from fragment to fragment, seen from root to root. */
  lemma {:induction false} RootsOfWalk(cx: Context, p: seq<Origin>, f: nat) returns (c: seq<nat>)
    requires Ready(cx) && HoldWalk(cx, p) && |p| >= 2 && p[0] == FromRoot(OfFragment(f)) && p[|p| - 1].FromRoot?
    ensures |c| >= 2 && FragmentWalk(cx, c) && c[0] == f && p[|p| - 1] == FromRoot(OfFragment(c[|c| - 1]))
    decreases |p|
  {
    hide Ready, OriginOk, Holds, SpreadRecursive;
    var j := 1;
    while !p[j].FromRoot?
      invariant 0 < j < |p| && forall i | 0 < i < j :: !p[i].FromRoot?
      decreases |p| - j
    {
      j := j + 1;
    }
    HeldRoot(cx, p, j);
    var g := p[j].root.id;
    WalkParts(cx, p, 0, j + 1);
    var first := p[0..j + 1];
    assert NoRootInside(first) && first[0] == p[0] && first[|first| - 1] == p[j];
    assert FragmentHolds(cx, f, g);
    if j == |p| - 1 {
      c := [f, g];
    } else {
      WalkParts(cx, p, j, |p|);
      var rest := RootsOfWalk(cx, p[j..], g);
      c := [f] + rest;
      assert forall i | 0 < i < |c| :: c[i] == rest[i - 1];
    }
  }

  lemma {:induction false} WalkOfRoots(cx: Context, c: seq<nat>) returns (p: seq<Origin>)
    requires Ready(cx) && FragmentWalk(cx, c) && |c| >= 2
    ensures |p| >= 2 && HoldWalk(cx, p)
    ensures p[0] == FromRoot(OfFragment(c[0])) && p[|p| - 1] == FromRoot(OfFragment(c[|c| - 1]))
    decreases |c|
  {
    hide Ready, OriginOk, Holds, HoldWalk;
    assert FragmentHolds(cx, c[0], c[1]);
    p :| && |p| >= 2 && HoldWalk(cx, p) && p[0] == FromRoot(OfFragment(c[0]))
         && p[|p| - 1] == FromRoot(OfFragment(c[1])) && NoRootInside(p);
    if |c| > 2 {
      assert forall i | 0 <= i < |c| - 1 :: c[1..][i] == c[i + 1];
      var q := WalkOfRoots(cx, c[1..]);
      WalksJoin(cx, p, q);
      p := p + q[1..];
    }
  }

  /** Turning a walk round so that it starts and ends at its root. */
  lemma Turned(cx: Context, p: seq<Origin>, i: nat) returns (q: seq<Origin>)
    requires Ready(cx) && HoldWalk(cx, p) && |p| >= 2 && p[0] == p[|p| - 1] && 0 < i < |p|
    ensures |q| >= 2 && HoldWalk(cx, q) && q[0] == q[|q| - 1] == p[i]
  {
    hide Ready, OriginOk, Holds, HoldWalk;
    WalkParts(cx, p, i, |p|);
    WalkParts(cx, p, 0, i + 1);
    q := p[i..|p|] + p[0..i + 1][1..];
    WalksJoin(cx, p[i..|p|], p[0..i + 1]);
  }

  /** Some struct has no finite size exactly if fragments hold each other in a cycle. */
  lemma {:induction false} FiniteSizeExactlyWhen(cx: Context)
    requires Ready(cx)
    ensures (exists o :: HoldsItself(cx, o)) ==> FragmentCycle(cx)
    ensures FragmentCycle(cx) ==> exists o :: HoldsItself(cx, o)
  {
    hide Ready, OriginOk, Holds, HoldWalk, SpreadRecursive;
    if o :| HoldsItself(cx, o) {
      var p: seq<Origin> :| |p| >= 2 && HoldWalk(cx, p) && p[0] == p[|p| - 1] == o;
      if forall i | 0 < i < |p| :: !p[i].FromRoot? {
        WalkGoesOn(cx, p);
      }
      var i :| 0 < i < |p| && p[i].FromRoot?;
      HeldRoot(cx, p, i);
      var q := Turned(cx, p, i);
      var c := RootsOfWalk(cx, q, p[i].root.id);
      assert c[0] == c[|c| - 1];
    }
    if FragmentCycle(cx) {
      var c: seq<nat> :| |c| >= 2 && FragmentWalk(cx, c) && c[0] == c[|c| - 1];
      var p := WalkOfRoots(cx, c);
      assert HoldsItself(cx, p[0]);
    }
  }

  // ----- In terms of spreads -----

  /** The fragment `g` is spread in the tree of the fragment `f`. */
  ghost predicate SpreadIn(a: Arena, f: nat, g: nat)
    requires Linked(a)
  {
    exists k: nat :: k < |a.nodes| && a.nodes[k] == FragmentSpread(g) && RootOf(a, k) == OfFragment(f)
  }

  predicate IdsInTree(a: Arena, ids: seq<nat>, f: nat)
    requires Linked(a)
  {
    forall c | c in ids :: c < |a.nodes| && RootOf(a, c) == OfFragment(f)
  }

  /** The struct was made for something in the tree of the fragment. */
  predicate InTree(cx: Context, o: Origin, f: nat)
    requires Ready(cx) && OriginOk(cx, o)
  {
    match o
    case FromRoot(root) => root == OfFragment(f)
    case FromField(id) => RootOf(cx.a, id) == OfFragment(f)
    case FromVariant(ms, _) => IdsInTree(cx.a, ms, f)
  }

  /** A step from the tree stays in it, or goes through a spread in it. */
  ghost predicate StaysIn(cx: Context, q: Origin, f: nat)
    requires Ready(cx) && OriginOk(cx, q)
  {
    match q
    case FromRoot(root) => root.OfFragment? && SpreadIn(cx.a, f, root.id)
    case _ => InTree(cx, q, f)
  }

  lemma ChildrenInTree(cx: Context, id: nat, f: nat)
    requires Ready(cx) && id < |cx.a.nodes| && RootOf(cx.a, id) == OfFragment(f)
    ensures IdsInTree(cx.a, cx.a.nodes[id].Subselection(), f)
  {
    hide Walkable, SelectsNoInputs, RootsInRange, NodesInRange;
    assert LinksOn(cx.a, id);
    forall c | c in cx.a.nodes[id].Subselection() ensures c < |cx.a.nodes| && RootOf(cx.a, c) == OfFragment(f) {
      OneUp(cx.a, c);
    }
  }

  lemma SpreadOf(cx: Context, k: nat, f: nat, q: Origin)
    requires Ready(cx) && k < |cx.a.nodes| && RootOf(cx.a, k) == OfFragment(f) && cx.a.nodes[k].FragmentSpread?
    requires cx.a.nodes[k].fragmentId < |cx.a.fragments| && HoldsFragment(cx, cx.a.nodes[k].fragmentId, q)
    ensures OriginOk(cx, q) && StaysIn(cx, q, f)
  {
  }

  lemma SetHoldsInTree(cx: Context, ids: seq<nat>, t: TypeId, q: Origin, f: nat)
    requires Ready(cx) && InTable(cx.a, ids) && cx.schema.Has(t) && SetHolds(cx, ids, t, q) && IdsInTree(cx.a, ids, f)
    ensures OriginOk(cx, q) && StaysIn(cx, q, f)
  {
    hide Walkable, SelectsNoInputs, RootsInRange, NodesInRange, Linked, Matching, Variants, RootOf, HoldsFragment;
    if Lone(cx, ids) {
      assert ids[0] in ids;
      NodeAt(cx.schema, cx.a, ids[0]);
      SpreadOf(cx, ids[0], f, q);
    } else if AnyHolds(cx, ids, t, q) {
      var k :| 0 <= k < |ids| && ids[k] in ids && SelectionHolds(cx, ids[k], t, q);
      NodeAt(cx.schema, cx.a, ids[k]);
      if cx.a.nodes[ids[k]].FragmentSpread? {
        SpreadOf(cx, ids[k], f, q);
      }
    } else {
      var k :| && 0 <= k < |Variants(cx, t)| && Matching(cx, ids, t, Variants(cx, t)[k]) != []
               && q == FromVariant(Matching(cx, ids, t, Variants(cx, t)[k]), Variants(cx, t)[k]);
      MatchingFirst(cx, ids, t, Variants(cx, t)[k]);
    }
  }

  lemma HoldsInTree(cx: Context, typed: bool, o: Origin, q: Origin, f: nat)
    requires Ready(cx) && Shaped(cx.schema, cx.a, typed) && OriginOk(cx, o) && Holds(cx, o, q) && InTree(cx, o, f)
    ensures OriginOk(cx, q) && StaysIn(cx, q, f)
  {
    hide SetHolds, StaysIn, Shaped, RootOf, HoldsFragment;
    match o
    case FromRoot(root) =>
      RootKnown(cx, root);
      RootChildrenInTree(cx, typed, f);
      SetHoldsInTree(cx, RootSelections(cx, root).0, RootSelections(cx, root).1, q, f);
    case FromField(id) =>
      NodeAt(cx.schema, cx.a, id);
      ChildrenInTree(cx, id, f);
      SetHoldsInTree(cx, cx.a.nodes[id].selectionSet, cx.schema.fields[cx.a.nodes[id].fieldId].fieldType.id, q, f);
    case FromVariant(ms, v) =>
      var k := OneOf(cx, ms, v, q);
      NodeAt(cx.schema, cx.a, ms[k]);
      NodeAt(cx.schema, cx.a, ms[0]);
      assert ms[k] in ms && ms[0] in ms;
      if cx.a.nodes[ms[k]].InlineFragment? {
        ChildrenInTree(cx, ms[0], f);
        SetHoldsInTree(cx, cx.a.nodes[ms[0]].Subselection(), v, q, f);
      } else {
        SpreadOf(cx, ms[k], f, q);
      }
  }

  lemma RootChildrenInTree(cx: Context, typed: bool, f: nat)
    requires Ready(cx) && Shaped(cx.schema, cx.a, typed) && f < |cx.a.fragments|
    ensures IdsInTree(cx.a, cx.a.fragments[f].selectionSet, f)
  {
    forall c | c in cx.a.fragments[f].selectionSet ensures c < |cx.a.nodes| && RootOf(cx.a, c) == OfFragment(f) {
      assert LinkedDown(cx.a, OfFragment(f));
      OneUp(cx.a, c);
    }
  }

  lemma {:induction false} WalkInTree(cx: Context, typed: bool, p: seq<Origin>, f: nat)
    requires Ready(cx) && Shaped(cx.schema, cx.a, typed) && HoldWalk(cx, p) && |p| >= 2 && NoRootInside(p)
    requires InTree(cx, p[0], f) && p[|p| - 1].FromRoot?
    ensures p[|p| - 1].root.OfFragment? && SpreadIn(cx.a, f, p[|p| - 1].root.id)
    decreases |p|
  {
    hide Shaped, Ready, Holds, OriginOk;
    HoldsInTree(cx, typed, p[0], p[1], f);
    if |p| > 2 {
      WalkParts(cx, p, 1, |p|);
      assert !p[1].FromRoot? && forall i | 0 <= i < |p| - 1 :: p[1..][i] == p[i + 1];
      WalkInTree(cx, typed, p[1..], f);
    }
  }

  /** A fragment holds only other fragments: those spread in its tree, and in their own tree not. */
  lemma FragmentHoldsOthers(cx: Context, typed: bool, f: nat, g: nat)
    requires Ready(cx) && Shaped(cx.schema, cx.a, typed) && FragmentHolds(cx, f, g)
    ensures Linked(cx.a) && f < |cx.a.fragments| && g < |cx.a.fragments|
    ensures SpreadIn(cx.a, f, g) && !SpreadIn(cx.a, g, g) && f != g
  {
    var p: seq<Origin> :| && |p| >= 2 && HoldWalk(cx, p) && p[0] == FromRoot(OfFragment(f))
                          && p[|p| - 1] == FromRoot(OfFragment(g)) && NoRootInside(p);
    hide Shaped, Holds, Walkable;
    assert OriginOk(cx, p[0]);
    HeldRoot(cx, p, |p| - 1);
    WalkInTree(cx, typed, p, f);
    RecursiveIffInOwnTree(cx.schema, cx.a, typed, g);
  }

  /** Another fragment is spread in the tree of `f`, and is not spread in its own tree, where it would be boxed. */
  ghost predicate SpreadStep(a: Arena, f: nat, g: nat)
    requires Linked(a)
  {
    SpreadIn(a, f, g) && !SpreadIn(a, g, g) && f != g
  }

  /** Different fragments spread each other in a cycle. */
  ghost predicate MutualSpreads(a: Arena)
    requires Linked(a)
  {
    exists c: seq<nat> :: |c| >= 2 && c[0] == c[|c| - 1] && forall i | 0 <= i < |c| - 1 :: SpreadStep(a, c[i], c[i + 1])
  }

  /**
   In a resolved query in which no different fragments spread each other, every struct has
   finite size: a fragment spread in its own tree is boxed.
   */
  lemma {:induction false} FiniteWithoutMutualSpreads(cx: Context, typed: bool, o: Origin)
    requires Ready(cx) && Shaped(cx.schema, cx.a, typed) && !MutualSpreads(cx.a)
    ensures !HoldsItself(cx, o)
  {
    assert Linked(cx.a);
    hide Shaped, Ready, HoldWalk, SpreadIn, Linked, FragmentHolds;
    FiniteSizeExactlyWhen(cx);
    if FragmentCycle(cx) {
      var c: seq<nat> :| |c| >= 2 && FragmentWalk(cx, c) && c[0] == c[|c| - 1];
      forall i | 0 <= i < |c| - 1 ensures SpreadStep(cx.a, c[i], c[i + 1]) {
        FragmentHoldsOthers(cx, typed, c[i], c[i + 1]);
      }
    }
  }
}
