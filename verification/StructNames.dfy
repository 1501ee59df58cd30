/** When the structs of an expansion have different names. */
module StructNames {
  import opened Schemas
  import opened Arenas
  import opened ArenaShape
  import opened ReadBack
  import opened Walks
  import opened UsedTypes
  import opened Expansion
  import opened ExpandedSelections
  import opened ResponseSizes
  import opened StructRepeats

  predicate NoRepeats<T(==)>(s: seq<T>) {
    forall i, j | 0 <= i < j < |s| :: s[i] != s[j]
  }

  // ----- Names are those of places in the table -----

  function NameAt(cx: Context, k: nat): string
    requires Ready(cx) && k < |cx.a.nodes| && !cx.a.nodes[k].Typename?
  {
    TypeKnown(cx, k);
    PathName(cx, k) + if TypeOn(cx, k).Some? then "On" + cx.schema.TypeName(TypeOn(cx, k).value) else ""
  }

  lemma TypeKnown(cx: Context, k: nat)
    requires Ready(cx) && k < |cx.a.nodes|
    ensures TypeOn(cx, k).Some? ==> cx.schema.Has(TypeOn(cx, k).value)
    ensures TypeOn(cx, k).None? <==> cx.a.nodes[k].Field? || cx.a.nodes[k].Typename?
  {
    NodeAt(cx.schema, cx.a, k);
  }

  lemma NameOfPlace(cx: Context, o: Origin, id: nat)
    requires Ready(cx) && Through(cx, o, id)
    ensures var k := Position(o);
            0 <= k < |cx.a.nodes| && !cx.a.nodes[k].Typename? && StructName(cx, o) == NameAt(cx, k)
  {
    hide PathName, Walkable, ChainTo;
  }

  /** Different places have different names. */
  ghost predicate NamesApart(cx: Context, os: seq<Origin>)
    requires Ready(cx)
  {
    forall o, p | o in os && p in os && OriginOk(cx, o) && OriginOk(cx, p) && Position(o) != Position(p) ::
      StructName(cx, o) != StructName(cx, p)
  }

  lemma SamePlaceSameName(cx: Context, o: Origin, p: Origin, ids: seq<nat>)
    requires Ready(cx) && ThroughSome(cx, o, ids) && ThroughSome(cx, p, ids) && Position(o) == Position(p)
    ensures OriginOk(cx, o) && OriginOk(cx, p) && StructName(cx, o) == StructName(cx, p)
  {
    var id :| id in ids && Through(cx, o, id);
    var other :| other in ids && Through(cx, p, other);
    NameOfPlace(cx, o, id);
    NameOfPlace(cx, p, other);
    hide Ready, StructName;
  }

  /** The names of a list of structs. */
  ghost predicate Named(cx: Context, os: seq<Origin>, names: seq<string>)
    requires Ready(cx)
  {
    && |os| == |names|
    && forall i | 0 <= i < |os| :: OriginOk(cx, os[i]) && names[i] == StructName(cx, os[i])
  }

  lemma NamesRepeat(cx: Context, os: seq<Origin>, names: seq<string>)
    requires Ready(cx) && Named(cx, os, names)
    requires forall o, p | o in os && p in os && OriginOk(cx, o) && OriginOk(cx, p) && Position(o) == Position(p) ::
               StructName(cx, o) == StructName(cx, p)
    ensures NoRepeats(names) <==> MadeOnce(os) && NamesApart(cx, os)
  {
    hide Ready, OriginOk, StructName, Position;
    assert forall i | 0 <= i < |os| :: os[i] in os;
  }

  lemma PlacesAreNamed(cx: Context, root: Parent, os: seq<Origin>, ids: seq<nat>)
    requires Ready(cx) && os != [] && os[0] == FromRoot(root) && forall o | o in os[1..] :: ThroughSome(cx, o, ids)
    ensures forall o, p | o in os && p in os && OriginOk(cx, o) && OriginOk(cx, p) && Position(o) == Position(p) ::
              StructName(cx, o) == StructName(cx, p)
  {
    hide Ready, OriginOk, StructName, Through;
    forall o, p | o in os && p in os && OriginOk(cx, o) && OriginOk(cx, p) && Position(o) == Position(p)
      ensures StructName(cx, o) == StructName(cx, p)
    {
      assert forall q :: q in os <==> q == os[0] || q in os[1..];
      if o in os[1..] { PlacesInTable(cx, o, ids); }
      if p in os[1..] { PlacesInTable(cx, p, ids); }
      if o in os[1..] && p in os[1..] {
        SamePlaceSameName(cx, o, p, ids);
      }
    }
  }

  /**
   The structs of an expansion have different names exactly if no step of it repeats any, and
   different places in the table have different names.
   */
  lemma NamesDifferExactlyWhen(cx: Context, root: Parent, out: Out, typed: bool)
    requires Ready(cx) && Shaped(cx.schema, cx.a, typed) && IsRoot(root) && HasParent(cx.a, root)
    requires Whole(cx, root, out)
    ensures NoRepeats(out.types) ==> AllOnce(cx, out.origins) && NamesApart(cx, out.origins)
    ensures AllOnce(cx, out.origins) && NamesApart(cx, out.origins) ==> NoRepeats(out.types)
  {
    hide Shaped, Structs, AllOnce, MadeOnce, NamesApart, OriginOk, StructName, ThroughSome, Named, Whole, RootsInRange,
         Walkable, Linked, NodesInRange, SelectsNoInputs;
    AllMadeOnceExactlyWhen(cx, root, typed);
    WholeIsNamed(cx, root, out);
    PlacesAreNamed(cx, root, out.origins, RootSelections(cx, root).0);
    NamesRepeat(cx, out.origins, out.types);
  }

  lemma WholeIsNamed(cx: Context, root: Parent, out: Out)
    requires Ready(cx) && IsRoot(root) && HasParent(cx.a, root) && Whole(cx, root, out)
    ensures Named(cx, out.origins, out.types)
    ensures var (ids, t) := RootSelections(cx, root);
            InTable(cx.a, ids) && cx.schema.Has(t) && out.origins == [FromRoot(root)] + Structs(cx, ids, t)
  {
    hide Ready, Structs, OriginOk, StructName, On, PartsOf;
    forall i | 0 <= i < |out.origins|
      ensures OriginOk(cx, out.origins[i]) && out.types[i] == StructName(cx, out.origins[i])
    {
      assert Settled(cx, out, i);
    }
  }

  // ----- When different places have different names -----

  /** What a selection adds to the names of the structs for it and below it. */
  function Step(cx: Context, k: nat): string
    requires Ready(cx) && k < |cx.a.nodes|
  {
    NodeAt(cx.schema, cx.a, k);
    TypeKnown(cx, k);
    if TypeOn(cx, k).Some? then "On" + cx.schema.TypeName(TypeOn(cx, k).value)
    else Segment(cx.schema, cx.a, k, cx.camel)
  }

  function Steps(cx: Context, k: nat): string
    requires Ready(cx) && k < |cx.a.nodes|
  {
    OneUp(cx.a, k);
    (if IsRoot(cx.a.parents[k]) then "" else Steps(cx, cx.a.parents[k].id)) + Step(cx, k)
  }

  /** The types that inline fragments are on have names in camel case already. */
  predicate CamelTypes(cx: Context)
    requires Ready(cx)
  {
    forall k: nat | k < |cx.a.nodes| && cx.a.nodes[k].InlineFragment? ::
      TypeKnown(cx, k);
      var name := cx.schema.TypeName(TypeOn(cx, k).value);
      cx.camel(name) == name
  }

  lemma {:induction false} SegmentsAreSteps(cx: Context, k: nat)
    requires Ready(cx) && CamelTypes(cx) && k < |cx.a.nodes| && HasChildren(cx.a.nodes[k])
    ensures Segments(cx.schema, cx.a, ChainTo(cx.a, k), cx.camel) == Steps(cx, k)
    decreases k
  {
    OneUp(cx.a, k);
    StepIsSegment(cx, k);
    hide Ready, CamelTypes, Step, Segment, ChainTo;
    var chain, p := ChainTo(cx.a, k), cx.a.parents[k];
    if IsRoot(p) {
      assert chain[..0] == [];
    } else {
      assert chain[..|chain| - 1] == ChainTo(cx.a, p.id);
      SegmentsAreSteps(cx, p.id);
    }
  }

  lemma StepIsSegment(cx: Context, k: nat)
    requires Ready(cx) && CamelTypes(cx) && k < |cx.a.nodes| && HasChildren(cx.a.nodes[k])
    ensures Linked(cx.a) && NodesInRange(cx.schema, cx.a)
    ensures Step(cx, k) == Segment(cx.schema, cx.a, k, cx.camel)
  {
    NodeAt(cx.schema, cx.a, k);
  }

  lemma NameIsSteps(cx: Context, k: nat)
    requires Ready(cx) && CamelTypes(cx) && k < |cx.a.nodes| && !cx.a.nodes[k].Typename?
    ensures NameAt(cx, k) == RootSegment(cx.a, RootOf(cx.a, k), cx.camel) + Steps(cx, k)
  {
    OneUp(cx.a, k);
    TypeKnown(cx, k);
    NodeAt(cx.schema, cx.a, k);
    hide CamelTypes, ChainTo, RootOf, Walkable;
    var chain, p := ChainTo(cx.a, k), cx.a.parents[k];
    if cx.a.nodes[k].Field? {
      SegmentsAreSteps(cx, k);
    } else if IsRoot(p) {
      assert chain[..|chain| - 1] == [];
    } else {
      assert chain[..|chain| - 1] == ChainTo(cx.a, p.id);
      SegmentsAreSteps(cx, p.id);
    }
  }

  /** The two texts differ in a character that both have, so neither begins with the other. */
  predicate PartWays(s: string, t: string) {
    exists i | 0 <= i < |s| && i < |t| :: s[i] != t[i]
  }

  /** With a selection, the set has those above it. */
  predicate Upward(a: Arena, w: set<nat>) {
    && |a.nodes| == |a.parents|
    && forall k | k in w :: k < |a.nodes| && (IsRoot(a.parents[k]) || a.parents[k].id in w)
  }

  /** Each selection of the set adds something to names, and what siblings add parts ways. */
  predicate StepsDiffer(cx: Context, w: set<nat>)
    requires Ready(cx) && Upward(cx.a, w)
  {
    && (forall k | k in w :: Step(cx, k) != "")
    && forall k, l | k in w && l in w && k != l && cx.a.parents[k] == cx.a.parents[l] ::
         PartWays(Step(cx, k), Step(cx, l))
  }

  lemma LongerPartWays(s: string, t: string, more: string)
    requires PartWays(s, t)
    ensures PartWays(s + more, t) && PartWays(t, s + more)
  {
    var i :| 0 <= i < |s| && i < |t| && s[i] != t[i];
    assert (s + more)[i] == s[i];
  }

  lemma PartWaysLater(before: string, s: string, t: string)
    requires PartWays(s, t)
    ensures PartWays(before + s, before + t)
  {
    var i :| 0 <= i < |s| && i < |t| && s[i] != t[i];
    assert (before + s)[|before| + i] == s[i] && (before + t)[|before| + i] == t[i];
  }

  /** Selections of one root that are not above each other. */
  lemma {:induction false} BranchesDiffer(cx: Context, w: set<nat>, x: nat, y: nat)
    requires Ready(cx) && Upward(cx.a, w) && StepsDiffer(cx, w) && x in w && y in w
    requires RootOf(cx.a, x) == RootOf(cx.a, y) && x !in ChainTo(cx.a, y) && y !in ChainTo(cx.a, x)
    ensures PartWays(Steps(cx, x), Steps(cx, y))
    decreases x + y
  {
    ReadyIsLinked(cx);
    hide Ready, StepsDiffer, Step, ChainTo, RootOf, PartWays, Linked;
    OneUp(cx.a, x);
    OneUp(cx.a, y);
    var p, q := cx.a.parents[x], cx.a.parents[y];
    if !IsRoot(p) && p.id !in ChainTo(cx.a, y) {
      BranchesDiffer(cx, w, p.id, y);
      LongerPartWays(Steps(cx, p.id), Steps(cx, y), Step(cx, x));
    } else if !IsRoot(q) && q.id !in ChainTo(cx.a, x) {
      BranchesDiffer(cx, w, x, q.id);
      LongerPartWays(Steps(cx, q.id), Steps(cx, x), Step(cx, y));
    } else {
      SiblingsOtherwise(cx.a, x, y);
      assert PartWays(Step(cx, x), Step(cx, y)) by { SiblingSteps(cx, w, x, y); }
      PartWaysLater(if IsRoot(p) then "" else Steps(cx, p.id), Step(cx, x), Step(cx, y));
    }
  }

  lemma ReadyIsLinked(cx: Context)
    requires Ready(cx)
    ensures Linked(cx.a)
  {
  }

  lemma SiblingSteps(cx: Context, w: set<nat>, x: nat, y: nat)
    requires Ready(cx) && Upward(cx.a, w) && StepsDiffer(cx, w) && x in w && y in w && x != y
    requires cx.a.parents[x] == cx.a.parents[y]
    ensures PartWays(Step(cx, x), Step(cx, y))
  {
  }

  lemma SiblingsOtherwise(a: Arena, x: nat, y: nat)
    requires Linked(a) && x < |a.nodes| == |a.parents| && y < |a.nodes|
    requires RootOf(a, x) == RootOf(a, y) && x !in ChainTo(a, y) && y !in ChainTo(a, x)
    requires IsRoot(a.parents[x]) || a.parents[x].id in ChainTo(a, y)
    requires IsRoot(a.parents[y]) || a.parents[y].id in ChainTo(a, x)
    ensures x != y && a.parents[x] == a.parents[y]
  {
    hide Linked, ChainTo, RootOf;
    EndOfChain(a, x);
    EndOfChain(a, y);
    OneUp(a, x);
    OneUp(a, y);
    var p, q := a.parents[x], a.parents[y];
    if !IsRoot(p) && !IsRoot(q) {
      ChainIsAbove(a, q.id, p.id);
      ChainIsAbove(a, p.id, q.id);
    }
  }

  /** What is above comes first in the name. */
  lemma {:induction false} AboveIsShorter(cx: Context, w: set<nat>, x: nat, y: nat)
    requires Ready(cx) && Upward(cx.a, w) && StepsDiffer(cx, w) && x in w && y in ChainTo(cx.a, x) && y != x
    ensures y < |cx.a.nodes| && Steps(cx, y) < Steps(cx, x)
    decreases x
  {
    ReadyIsLinked(cx);
    assert Step(cx, x) != "";
    hide Ready, StepsDiffer, Step, ChainTo, Linked;
    OneUp(cx.a, x);
    var p := cx.a.parents[x];
    if p.id != y {
      AboveIsShorter(cx, w, p.id, y);
    }
  }

  lemma StepsApart(cx: Context, w: set<nat>, x: nat, y: nat)
    requires Ready(cx) && Upward(cx.a, w) && StepsDiffer(cx, w) && x in w && y in w && x != y
    requires RootOf(cx.a, x) == RootOf(cx.a, y)
    ensures Steps(cx, x) != Steps(cx, y)
  {
    ReadyIsLinked(cx);
    hide Ready, StepsDiffer, Steps, ChainTo, RootOf, Linked;
    if y in ChainTo(cx.a, x) {
      AboveIsShorter(cx, w, x, y);
    } else if x in ChainTo(cx.a, y) {
      AboveIsShorter(cx, w, y, x);
    } else {
      BranchesDiffer(cx, w, x, y);
    }
  }

  /** The set has the places of all structs but the first. */
  ghost predicate HasPlaces(os: seq<Origin>, w: set<nat>) {
    os != [] && forall o | o in os[1..] :: Position(o) in w
  }

  lemma PlaceName(cx: Context, root: Parent, ids: seq<nat>, o: Origin)
    requires Ready(cx) && CamelTypes(cx) && ThroughSome(cx, o, ids) && SameParent(cx.a, ids)
    requires IsRoot(root) && HasParent(cx.a, root) && forall c | c in ids :: cx.a.parents[c] == root
    ensures var k := Position(o);
            && 0 <= k < |cx.a.nodes| && RootOf(cx.a, k) == root && OriginOk(cx, o)
            && StructName(cx, o) == RootSegment(cx.a, root, cx.camel) + Steps(cx, k)
  {
    var id :| id in ids && Through(cx, o, id);
    NameOfPlace(cx, o, id);
    NameIsSteps(cx, Position(o));
    hide Ready, StructName, NameAt, Steps, ChainTo;
    ReadyIsLinked(cx);
    SameRoot(cx.a, Position(o), id);
    OneUp(cx.a, id);
  }

  lemma {:induction false} SameRoot(a: Arena, k: nat, c: nat)
    requires Linked(a) && k < |a.nodes| && c in ChainTo(a, k) && c < |a.nodes|
    ensures RootOf(a, c) == RootOf(a, k)
    decreases k
  {
    hide Linked, ChainTo, RootOf;
    OneUp(a, k);
    if c != k {
      SameRoot(a, a.parents[k].id, c);
    }
  }

  /**
   So it is if what siblings add to names parts ways, and the name of the root, which is not
   brought into camel case, does not go on where the other names do.
   */
  lemma StepsKeepNamesApart(cx: Context, root: Parent, out: Out, typed: bool, w: set<nat>)
    requires Ready(cx) && Shaped(cx.schema, cx.a, typed) && IsRoot(root) && HasParent(cx.a, root)
    requires Whole(cx, root, out)
    requires CamelTypes(cx) && Upward(cx.a, w) && StepsDiffer(cx, w) && HasPlaces(out.origins, w)
    requires !(RootSegment(cx.a, root, cx.camel) < out.types[0])
    ensures NamesApart(cx, out.origins)
  {
    hide Shaped, Structs, AllOnce, MadeOnce, OriginOk, StructName, ThroughSome, Named, Whole, RootsInRange,
         Walkable, Linked, NodesInRange, SelectsNoInputs, StepsDiffer, Steps, CamelTypes, RootSegment;
    AllMadeOnceExactlyWhen(cx, root, typed);
    WholeIsNamed(cx, root, out);
    RootFirst(cx, root, out);
    PlacesApart(cx, root, out.origins, RootSelections(cx, root).0, w);
  }

  lemma RootFirst(cx: Context, root: Parent, out: Out)
    requires Ready(cx) && Named(cx, out.origins, out.types) && out.origins != [] && out.origins[0] == FromRoot(root)
    ensures OriginOk(cx, FromRoot(root)) && out.types != [] && out.types[0] == StructName(cx, FromRoot(root))
  {
    hide Ready, OriginOk, StructName;
  }

  lemma SamePrefixCancels(before: string, s: string, t: string)
    ensures before + s == before + t ==> s == t
  {
    assert (before + s)[|before|..] == s && (before + t)[|before|..] == t;
  }

  lemma PlacesApart(cx: Context, root: Parent, os: seq<Origin>, ids: seq<nat>, w: set<nat>)
    requires Ready(cx) && os != [] && os[0] == FromRoot(root) && forall o | o in os[1..] :: ThroughSome(cx, o, ids)
    requires CamelTypes(cx) && Upward(cx.a, w) && StepsDiffer(cx, w) && HasPlaces(os, w) && SameParent(cx.a, ids)
    requires IsRoot(root) && HasParent(cx.a, root) && forall c | c in ids :: cx.a.parents[c] == root
    requires OriginOk(cx, FromRoot(root)) && !(RootSegment(cx.a, root, cx.camel) < StructName(cx, FromRoot(root)))
    ensures NamesApart(cx, os)
  {
    hide Ready, OriginOk, StructName, ThroughSome, StepsDiffer, Steps, CamelTypes, RootSegment, RootOf;
    assert forall q :: q in os <==> q == os[0] || q in os[1..];
    forall o | o in os[1..] ensures OriginOk(cx, o) && OtherName(cx, root, StructName(cx, o)) {
      PlaceName(cx, root, ids, o);
      assert Step(cx, Position(o)) != "" by { StepNotEmpty(cx, w, Position(o)); }
      StepsNotEmpty(cx, Position(o));
    }
    forall o, p | o in os && p in os && OriginOk(cx, o) && OriginOk(cx, p) && Position(o) != Position(p)
      ensures StructName(cx, o) != StructName(cx, p)
    {
      if o in os[1..] && p in os[1..] {
        PlaceName(cx, root, ids, o);
        PlaceName(cx, root, ids, p);
        StepsApart(cx, w, Position(o), Position(p));
        SamePrefixCancels(RootSegment(cx.a, root, cx.camel), Steps(cx, Position(o)), Steps(cx, Position(p)));
      }
    }
  }

  /** The name goes on after that of the root. */
  predicate OtherName(cx: Context, root: Parent, name: string)
    requires IsRoot(root) && HasParent(cx.a, root)
  {
    RootSegment(cx.a, root, cx.camel) < name
  }

  lemma StepNotEmpty(cx: Context, w: set<nat>, k: nat)
    requires Ready(cx) && Upward(cx.a, w) && StepsDiffer(cx, w) && k in w
    ensures Step(cx, k) != ""
  {
  }

  lemma StepsNotEmpty(cx: Context, k: nat)
    requires Ready(cx) && k < |cx.a.nodes| && Step(cx, k) != ""
    ensures Steps(cx, k) != ""
  {
    hide Ready, Step;
  }

  // ----- Names that clash -----

  /** Two fields side by side with the same response name, up to its case, have structs of the same name. */
  lemma SameResponseNameClashes(cx: Context, root: Parent, out: Out, i: nat, j: nat)
    requires Ready(cx) && IsRoot(root) && HasParent(cx.a, root) && Whole(cx, root, out)
    requires FromField(i) in out.origins && FromField(j) in out.origins && i != j
    requires i < |cx.a.nodes| == |cx.a.parents| && j < |cx.a.nodes| && cx.a.parents[i] == cx.a.parents[j]
    requires Step(cx, i) == Step(cx, j)
    ensures !NoRepeats(out.types)
  {
    WholeIsNamed(cx, root, out);
    SameStepSameName(cx, i, j);
    hide Ready, Whole, Structs, PathName, Step;
    var x: nat :| x < |out.origins| && out.origins[x] == FromField(i);
    var y: nat :| y < |out.origins| && out.origins[y] == FromField(j);
    assert x != y && out.types[x] == out.types[y];
    assert !NoRepeats(out.types);
  }

  lemma SameStepSameName(cx: Context, i: nat, j: nat)
    requires Ready(cx) && i < |cx.a.nodes| == |cx.a.parents| && j < |cx.a.nodes| && cx.a.parents[i] == cx.a.parents[j]
    requires cx.a.nodes[i].Field? && cx.a.nodes[j].Field? && Step(cx, i) == Step(cx, j)
    ensures PathName(cx, i) == PathName(cx, j)
  {
    OneUp(cx.a, i);
    OneUp(cx.a, j);
    hide ChainTo, RootOf, Walkable;
    var above := if IsRoot(cx.a.parents[i]) then [] else ChainTo(cx.a, cx.a.parents[i].id);
    assert ChainTo(cx.a, i)[..|above|] == above == ChainTo(cx.a, j)[..|above|];
  }
}
