/** The walks of crates/codegen/src/query.rs and query/fragments.rs: up to the root, and down to spreads. */
module Walks {
  import opened Schemas
  import opened Arenas
  import opened Resolver
  import opened ArenaShape

  /** Parent links lead back to existing parents; child lists lead on. */
  predicate Linked(a: Arena) {
    && |a.nodes| == |a.parents|
    && (forall k: nat | k < |a.nodes| :: LinksBack(a, k))
    && (forall k: nat | k < |a.nodes| :: LinksOn(a, k))
  }

  predicate LinksBack(a: Arena, k: nat)
    requires k < |a.nodes| == |a.parents|
  {
    HasParent(a, a.parents[k]) && (IsRoot(a.parents[k]) || a.parents[k].id < k)
  }

  predicate LinksOn(a: Arena, k: nat)
    requires k < |a.nodes| == |a.parents|
  {
    forall c | c in a.nodes[k].Subselection() :: k < c < |a.nodes| && a.parents[c] == LinkTo(a.nodes[k], k)
  }

  lemma ShapedIsLinked(schema: Schema, a: Arena, typed: bool)
    requires schema.Valid() && Shaped(schema, a, typed)
    ensures Linked(a)
  {
    hide Fits;
    forall k: nat | k < |a.nodes| ensures LinksBack(a, k) {
      assert LinkedUp(schema, a, k, typed);
    }
    forall k: nat | k < |a.nodes| ensures LinksOn(a, k) {
      if HasChildren(a.nodes[k]) {
        assert LinkedDown(a, LinkTo(a.nodes[k], k));
        forall c | c in a.nodes[k].Subselection() ensures k < c {
          assert LinkedUp(schema, a, c, typed);
        }
      }
    }
  }

  // ----- Up -----

  /** The fragment or operation a selection is in. */
  function RootOf(a: Arena, k: nat): (p: Parent)
    requires Linked(a) && k < |a.nodes|
    ensures IsRoot(p) && HasParent(a, p)
  {
    assert LinksBack(a, k);
    if IsRoot(a.parents[k]) then a.parents[k] else RootOf(a, a.parents[k].id)
  }

  /** The selections from the root down to `k`. */
  function ChainTo(a: Arena, k: nat): (ids: seq<nat>)
    requires Linked(a) && k < |a.nodes|
    ensures ids != [] && ids[|ids| - 1] == k && InNodes(a, ids)
  {
    assert LinksBack(a, k);
    if IsRoot(a.parents[k]) then [k] else ChainTo(a, a.parents[k].id) + [k]
  }

  predicate InNodes(a: Arena, ids: seq<nat>) {
    forall i | 0 <= i < |ids| :: ids[i] < |a.nodes|
  }

  /** A way down: the first is listed by the root, each next one by the one before. */
  predicate IsPath(a: Arena, root: Parent, ids: seq<nat>)
    requires HasParent(a, root)
  {
    && ids != []
    && var last := ids[|ids| - 1];
    && last < |a.nodes|
    && if |ids| == 1 then last in ChildrenOf(a, root)
       else
         && ids[|ids| - 2] < |a.nodes|
         && last in a.nodes[ids[|ids| - 2]].Subselection()
         && IsPath(a, root, ids[..|ids| - 1])
  }

  lemma OneUp(a: Arena, k: nat)
    requires Linked(a) && k < |a.nodes|
    ensures |a.parents| == |a.nodes| && LinksBack(a, k)
    ensures var p := a.parents[k];
            && HasParent(a, p)
            && RootOf(a, k) == (if IsRoot(p) then p else RootOf(a, p.id))
            && ChainTo(a, k) == (if IsRoot(p) then [k] else ChainTo(a, p.id) + [k])
  {
  }

  /** The walk up gives a way down to a selection. */
  lemma {:induction false} ChainIsPath(schema: Schema, a: Arena, typed: bool, k: nat)
    requires schema.Valid() && Shaped(schema, a, typed) && Linked(a) && k < |a.nodes|
    ensures IsPath(a, RootOf(a, k), ChainTo(a, k))
    decreases k
  {
    hide Shaped, Fits;
    ListedOnce(schema, a, typed, k);
    var p := a.parents[k];
    if !IsRoot(p) {
      ChainIsPath(schema, a, typed, p.id);
      assert ChainTo(a, k)[..|ChainTo(a, k)| - 1] == ChainTo(a, p.id);
    }
  }

  /** It is the only one. */
  lemma {:induction false} PathIsChain(schema: Schema, a: Arena, typed: bool, root: Parent, ids: seq<nat>)
    requires schema.Valid() && Shaped(schema, a, typed) && Linked(a)
    requires IsRoot(root) && HasParent(a, root) && IsPath(a, root, ids)
    ensures var k := ids[|ids| - 1];
            root == RootOf(a, k) && ids == ChainTo(a, k)
    decreases |ids|
  {
    hide Shaped, Fits, Linked, ChainTo, RootOf;
    var k := ids[|ids| - 1];
    OneUp(a, k);
    if |ids| == 1 {
      ListedBy(schema, a, typed, root, k);
    } else {
      var q := ids[|ids| - 2];
      ListedBy(schema, a, typed, LinkTo(a.nodes[q], q), k);
      PathIsChain(schema, a, typed, root, ids[..|ids| - 1]);
      assert ids == ids[..|ids| - 1] + [k];
    }
  }

  lemma ListedOnce(schema: Schema, a: Arena, typed: bool, k: nat)
    requires schema.Valid() && Shaped(schema, a, typed) && k < |a.nodes|
    ensures HasParent(a, a.parents[k]) && k in ChildrenOf(a, a.parents[k])
    ensures IsRoot(a.parents[k]) || a.parents[k].id < k
  {
    hide Fits;
    assert LinkedUp(schema, a, k, typed);
  }

  lemma ListedBy(schema: Schema, a: Arena, typed: bool, p: Parent, k: nat)
    requires schema.Valid() && Shaped(schema, a, typed) && k < |a.nodes| && HasParent(a, p) && k in ChildrenOf(a, p)
    ensures a.parents[k] == p
  {
    hide Fits;
    assert LinkedDown(a, p);
  }

  // ----- Names -----

  /** What a field or inline fragment adds to the name. */
  function Segment(schema: Schema, a: Arena, k: nat, camel: string -> string): string
    requires k < |a.nodes| && NodeInRange(schema, |a.fragments|, a.nodes[k])
  {
    match a.nodes[k]
    case Field(alias, f, _) => if alias.Some? then camel(alias.value) else camel(schema.fields[f].name)
    case InlineFragment(t, _) => "On" + camel(schema.TypeName(t))
    case _ => ""
  }

  function RootSegment(a: Arena, root: Parent, camel: string -> string): string
    requires IsRoot(root) && HasParent(a, root)
  {
    match root
    case OfFragment(f) => camel(a.fragments[f].name)
    case OfOperation(o) => camel(a.operations[o].name)
  }

  predicate NodesInRange(schema: Schema, a: Arena) {
    forall k | 0 <= k < |a.nodes| :: NodeInRange(schema, |a.fragments|, a.nodes[k])
  }

  function Segments(schema: Schema, a: Arena, ids: seq<nat>, camel: string -> string): string
    requires NodesInRange(schema, a) && InNodes(a, ids)
  {
    if ids == [] then ""
    else Segments(schema, a, ids[..|ids| - 1], camel) + Segment(schema, a, ids[|ids| - 1], camel)
  }

  /** `path.reverse()` and then `join`. */
  function JoinReversed(path: seq<string>): string {
    if path == [] then "" else path[|path| - 1] + JoinReversed(path[..|path| - 1])
  }

  lemma JoinMore(path: seq<string>, s: string)
    ensures JoinReversed(path + [s]) == s + JoinReversed(path)
  {
    assert (path + [s])[..|path|] == path;
  }

  /**
   `full_path_prefix`: the name of the root, then the segments on the way down; an inline
   fragment's own segment is left out.
   */
  method FullPathPrefix(schema: Schema, a: Arena, id: nat, camel: string -> string) returns (name: string)
    requires Linked(a) && NodesInRange(schema, a) && id < |a.nodes| && !a.nodes[id].Typename?
    ensures var chain := ChainTo(a, id);
            name == RootSegment(a, RootOf(a, id), camel) +
                    Segments(schema, a, if a.nodes[id].Field? then chain else chain[..|chain| - 1], camel)
  {
    hide Linked, LinksBack, ChainTo, RootOf, NodesInRange, JoinReversed, Segments;
    ghost var chain: seq<nat> := ChainTo(a, id);
    ghost var named: seq<nat> := if a.nodes[id].Field? then chain else chain[..|chain| - 1];
    InRangeAt(schema, a, id);
    OneUp(a, id);
    var path := [];
    if a.nodes[id].Field? {
      path := [Segment(schema, a, id, camel)];
    }
    ghost var above: seq<nat> := chain[..|chain| - 1];
    FirstSegment(schema, a, chain, camel);
    var item: nat := id;
    while !IsRoot(a.parents[item])
      invariant item < |a.nodes| && RootOf(a, item) == RootOf(a, id)
      invariant ChainTo(a, item) == above + [item] && InNodes(a, above)
      invariant Segments(schema, a, named, camel) == Segments(schema, a, above, camel) + JoinReversed(path)
      decreases item
    {
      OneUp(a, item);
      var p := a.parents[item];
      InRangeAt(schema, a, p.id);
      OneUp(a, p.id);
      assert above == (above + [item])[..|above|] == ChainTo(a, p.id);
      SegmentsMore(schema, a, above, camel, path);
      path := path + [Segment(schema, a, p.id, camel)];
      item := p.id;
      above := above[..|above| - 1];
      assert ChainTo(a, item) == above + [item];
    }
    OneUp(a, item);
    assert above == [];
    NoSegments(schema, a, camel);
    JoinMore(path, RootSegment(a, a.parents[item], camel));
    path := path + [RootSegment(a, a.parents[item], camel)];
    name := JoinReversed(path);
  }

  lemma InRangeAt(schema: Schema, a: Arena, k: nat)
    requires NodesInRange(schema, a) && k < |a.nodes|
    ensures NodeInRange(schema, |a.fragments|, a.nodes[k])
  {
  }

  lemma NoSegments(schema: Schema, a: Arena, camel: string -> string)
    requires NodesInRange(schema, a)
    ensures Segments(schema, a, [], camel) == ""
  {
  }

  lemma FirstSegment(schema: Schema, a: Arena, ids: seq<nat>, camel: string -> string)
    requires NodesInRange(schema, a) && InNodes(a, ids) && ids != []
    ensures InNodes(a, ids[..|ids| - 1])
    ensures Segments(schema, a, ids, camel) ==
            Segments(schema, a, ids[..|ids| - 1], camel) + JoinReversed([Segment(schema, a, ids[|ids| - 1], camel)])
    ensures Segments(schema, a, ids[..|ids| - 1], camel) ==
            Segments(schema, a, ids[..|ids| - 1], camel) + JoinReversed([])
  {
    JoinMore([], Segment(schema, a, ids[|ids| - 1], camel));
  }

  lemma SegmentsMore(schema: Schema, a: Arena, ids: seq<nat>, camel: string -> string, path: seq<string>)
    requires NodesInRange(schema, a) && InNodes(a, ids) && ids != []
    ensures InNodes(a, ids[..|ids| - 1])
    ensures Segments(schema, a, ids, camel) + JoinReversed(path) ==
            Segments(schema, a, ids[..|ids| - 1], camel) +
            JoinReversed(path + [Segment(schema, a, ids[|ids| - 1], camel)])
  {
    JoinMore(path, Segment(schema, a, ids[|ids| - 1], camel));
  }

  // ----- Down -----

  /** `contains_fragment`. */
  predicate ContainsFragment(a: Arena, id: nat, f: nat)
    requires Linked(a) && id < |a.nodes|
    decreases |a.nodes| - id
  {
    assert LinksOn(a, id);
    if a.nodes[id].FragmentSpread? then a.nodes[id].fragmentId == f
    else exists c | c in a.nodes[id].Subselection() :: ContainsFragment(a, c, f)
  }

  /** `fragment_is_recursive`. */
  predicate FragmentIsRecursive(a: Arena, f: nat)
    requires Linked(a) && f < |a.fragments| && forall c | c in a.fragments[f].selectionSet :: c < |a.nodes|
  {
    exists c | c in a.fragments[f].selectionSet :: ContainsFragment(a, c, f)
  }

  lemma {:induction false} ContainedIsBelow(a: Arena, id: nat, f: nat) returns (k: nat)
    requires Linked(a) && id < |a.nodes| && ContainsFragment(a, id, f)
    ensures k < |a.nodes| && a.nodes[k] == FragmentSpread(f) && RootOf(a, k) == RootOf(a, id)
    decreases |a.nodes| - id
  {
    assert LinksOn(a, id);
    if a.nodes[id].FragmentSpread? {
      k := id;
    } else {
      var c :| c in a.nodes[id].Subselection() && ContainsFragment(a, c, f);
      k := ContainedIsBelow(a, c, f);
    }
  }

  lemma {:induction false} BelowIsContained(schema: Schema, a: Arena, typed: bool, k: nat, f: nat) returns (top: nat)
    requires schema.Valid() && Shaped(schema, a, typed) && Linked(a) && k < |a.nodes| && ContainsFragment(a, k, f)
    ensures top in ChildrenOf(a, RootOf(a, k)) && top < |a.nodes| && ContainsFragment(a, top, f)
    decreases k
  {
    hide Shaped, Fits;
    ListedOnce(schema, a, typed, k);
    var p := a.parents[k];
    if IsRoot(p) {
      top := k;
    } else {
      assert k in a.nodes[p.id].Subselection();
      top := BelowIsContained(schema, a, typed, p.id, f);
    }
  }

  /** The search terminates, and says yes exactly when the fragment is spread inside its own tree. */
  lemma RecursiveIffInOwnTree(schema: Schema, a: Arena, typed: bool, f: nat)
    requires schema.Valid() && Shaped(schema, a, typed) && f < |a.fragments|
    ensures Linked(a) && forall c | c in a.fragments[f].selectionSet :: c < |a.nodes|
    ensures FragmentIsRecursive(a, f) <==>
            exists k: nat :: k < |a.nodes| && a.nodes[k] == FragmentSpread(f) && RootOf(a, k) == OfFragment(f)
  {
    ShapedIsLinked(schema, a, typed);
    assert LinkedDown(a, OfFragment(f));
    hide Shaped, Linked, Fits;
    if FragmentIsRecursive(a, f) {
      var c :| c in a.fragments[f].selectionSet && ContainsFragment(a, c, f);
      ListedBy(schema, a, typed, OfFragment(f), c);
      var k := ContainedIsBelow(a, c, f);
    }
    if k: nat :| k < |a.nodes| && a.nodes[k] == FragmentSpread(f) && RootOf(a, k) == OfFragment(f) {
      var top := BelowIsContained(schema, a, typed, k, f);
    }
  }
}
