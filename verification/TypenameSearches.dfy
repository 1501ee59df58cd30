/** When the search for `__typename` in crates/codegen/src/query/validation.rs ends. */
module TypenameSearches {
  import opened Wrappers
  import Ast
  import opened Schemas
  import opened Arenas
  import opened Resolution
  import opened Resolver
  import opened Validation
  import opened Pigeonholes

  predicate Known(a: Arena, ids: seq<nat>) {
    forall c | c in ids :: c < |a.nodes|
  }

  ghost predicate Leads(a: Arena, t: TypeId, ids: seq<nat>)
    requires Readable(a) && Known(a, ids)
  {
    exists spreads :: LeadsToTypename(a, t, ids, spreads)
  }

  predicate IsSpread(a: Arena, t: TypeId, c: nat, f: nat) {
    c < |a.nodes| && a.nodes[c] == FragmentSpread(f) && f < |a.fragments| && a.fragments[f].on == t
  }

  lemma LeadsCons(a: Arena, t: TypeId, ids: seq<nat>)
    requires Readable(a) && Known(a, ids) && ids != []
    ensures ids[0] in ids && Known(a, ids[1..])
    ensures a.nodes[ids[0]].Typename? ==> Leads(a, t, ids)
    ensures Leads(a, t, ids[1..]) ==> Leads(a, t, ids)
    ensures forall f: nat | IsSpread(a, t, ids[0], f) :: Leads(a, t, a.fragments[f].selectionSet) ==> Leads(a, t, ids)
    ensures Leads(a, t, ids) ==>
              || a.nodes[ids[0]].Typename? || Leads(a, t, ids[1..])
              || exists f: nat :: IsSpread(a, t, ids[0], f) && Leads(a, t, a.fragments[f].selectionSet)
  {
    assert ids[0] in ids && forall c | c in ids[1..] :: c in ids;
    if a.nodes[ids[0]].Typename? {
      assert LeadsToTypename(a, t, ids, []);
    } else {
      forall spreads | LeadsToTypename(a, t, ids[1..], spreads) ensures LeadsToTypename(a, t, ids, spreads) {
        LeadsThroughOne(a, t, ids, spreads);
      }
      forall f: nat, spreads | IsSpread(a, t, ids[0], f) && LeadsToTypename(a, t, a.fragments[f].selectionSet, spreads)
        ensures LeadsToTypename(a, t, ids, [f] + spreads)
      {
        assert ([f] + spreads)[1..] == spreads;
        LeadsThroughOne(a, t, ids, [f] + spreads);
      }
      if Leads(a, t, ids) {
        var spreads :| LeadsToTypename(a, t, ids, spreads);
        LeadsThroughOne(a, t, ids, spreads);
        if !LeadsToTypename(a, t, ids[1..], spreads) {
          assert IsSpread(a, t, ids[0], spreads[0]) && Leads(a, t, a.fragments[spreads[0]].selectionSet);
        }
      }
    }
  }

  // ----- Where the search goes -----

  /**
   The search through `ids` goes into fragment `f`: it is spread there, on type `t`, and
   nothing before it in the list leads to `__typename`, which would have settled the answer.
   */
  ghost predicate Opens(a: Arena, t: TypeId, ids: seq<nat>, f: nat)
    requires Readable(a) && Known(a, ids)
  {
    exists k :: OpensAt(a, t, ids, f, k)
  }

  ghost predicate OpensAt(a: Arena, t: TypeId, ids: seq<nat>, f: nat, k: int)
    requires Readable(a) && Known(a, ids)
  {
    && 0 <= k < |ids| && IsSpread(a, t, ids[k], f)
    && (assert forall c | c in ids[..k] :: c in ids; !Leads(a, t, ids[..k]))
  }

  /** A chain of such fragments, each gone into from the one before. */
  ghost predicate OpenChain(a: Arena, t: TypeId, ids: seq<nat>, p: seq<nat>)
    requires Readable(a) && Known(a, ids)
    decreases |p|
  {
    p == [] || (Opens(a, t, ids, p[0]) && OpenChain(a, t, a.fragments[p[0]].selectionSet, p[1..]))
  }

  /** The search can be led into a circle of fragments. */
  ghost predicate Circles(a: Arena, t: TypeId, ids: seq<nat>)
    requires Readable(a) && Known(a, ids)
  {
    exists p, i, j :: OpenChain(a, t, ids, p) && 0 <= i < j < |p| && p[i] == p[j]
  }

  /** If the first selection does not lead to `__typename`, the search goes on with the others. */
  lemma OpensCons(a: Arena, t: TypeId, ids: seq<nat>, f: nat, k: nat)
    requires Readable(a) && Known(a, ids) && 0 < k < |ids|
    ensures Known(a, ids[1..]) && Known(a, ids[..1])
    ensures OpensAt(a, t, ids, f, k) <==> OpensAt(a, t, ids[1..], f, k - 1) && !Leads(a, t, ids[..1])
  {
    assert forall c | c in ids[1..] :: c in ids;
    assert forall c | c in ids[..k] :: c in ids;
    assert forall c | c in ids[..1] :: c in ids;
    assert ids[..k][1..] == ids[1..][..k - 1] && ids[..1][1..] == [];
    assert forall spreads :: !LeadsToTypename(a, t, [], spreads);
    LeadsCons(a, t, ids[..k]);
    LeadsCons(a, t, ids[..1]);
  }

  lemma GoesOn(a: Arena, t: TypeId, ids: seq<nat>, fuel: nat)
    requires Readable(a) && Known(a, ids) && ids != [] && Known(a, ids[..1]) && Known(a, ids[1..])
    requires !Leads(a, t, ids[..1]) && ContainsTypename(a, t, ids, fuel).Some?
    ensures ContainsTypename(a, t, ids[1..], fuel).Some?
  {
    LeadsCons(a, t, ids[..1]);
    var node := a.nodes[ids[0]];
    if node.FragmentSpread? && fuel > 0 && a.fragments[node.fragmentId].on == t {
      assert IsSpread(a, t, ids[..1][0], node.fragmentId);
      assert !Leads(a, t, a.fragments[node.fragmentId].selectionSet);
      TypenameAnswerIsRight(a, t, a.fragments[node.fragmentId].selectionSet, fuel - 1);
      var inner := ContainsTypename(a, t, a.fragments[node.fragmentId].selectionSet, fuel - 1);
      assert inner.Some? && !inner.value;
    }
  }

  /** A search that answers has gone into every fragment open to it, and answered there. */
  lemma {:induction false} AnsweredThrough(a: Arena, t: TypeId, ids: seq<nat>, f: nat, k: nat, fuel: nat)
    requires Readable(a) && Known(a, ids) && OpensAt(a, t, ids, f, k)
    requires ContainsTypename(a, t, ids, fuel).Some?
    ensures fuel > 0 && ContainsTypename(a, t, a.fragments[f].selectionSet, fuel - 1).Some?
    decreases k
  {
    assert ids[0] in ids && NodeKnown(a, a.nodes[ids[0]]);
    if k > 0 {
      OpensCons(a, t, ids, f, k);
      GoesOn(a, t, ids, fuel);
      AnsweredThrough(a, t, ids[1..], f, k - 1, fuel);
    }
  }

  /** The first selection spreads a fragment on the type, and the search through that runs out of fuel. */
  predicate StuckFirst(a: Arena, t: TypeId, ids: seq<nat>, fuel: nat)
    requires Readable(a) && Known(a, ids) && ids != []
  {
    assert ids[0] in ids && NodeKnown(a, a.nodes[ids[0]]);
    var node := a.nodes[ids[0]];
    && node.FragmentSpread? && a.fragments[node.fragmentId].on == t
    && (fuel == 0 || ContainsTypename(a, t, a.fragments[node.fragmentId].selectionSet, fuel - 1).None?)
  }

  lemma StuckLater(a: Arena, t: TypeId, ids: seq<nat>, fuel: nat)
    requires Readable(a) && Known(a, ids) && ids != [] && ContainsTypename(a, t, ids, fuel).None?
    requires !StuckFirst(a, t, ids, fuel)
    ensures Known(a, ids[1..]) && Known(a, ids[..1])
    ensures ContainsTypename(a, t, ids[1..], fuel).None? && !Leads(a, t, ids[..1])
  {
    assert ids[0] in ids && NodeKnown(a, a.nodes[ids[0]]);
    assert (forall c | c in ids[1..] :: c in ids) && forall c | c in ids[..1] :: c in ids;
    assert forall spreads :: !LeadsToTypename(a, t, [], spreads);
    LeadsCons(a, t, ids[..1]);
    var node := a.nodes[ids[0]];
    if node.FragmentSpread? && a.fragments[node.fragmentId].on == t {
      TypenameAnswerIsRight(a, t, a.fragments[node.fragmentId].selectionSet, fuel - 1);
    }
  }

  /** A search that runs out of fuel has gone into some fragment and run out there. */
  lemma {:induction false} StuckSomewhere(a: Arena, t: TypeId, ids: seq<nat>, fuel: nat) returns (f: nat, k: nat)
    requires Readable(a) && Known(a, ids) && ContainsTypename(a, t, ids, fuel).None?
    ensures OpensAt(a, t, ids, f, k)
    ensures fuel > 0 ==> ContainsTypename(a, t, a.fragments[f].selectionSet, fuel - 1).None?
    decreases |ids|
  {
    if StuckFirst(a, t, ids, fuel) {
      assert forall spreads :: !LeadsToTypename(a, t, [], spreads);
      assert ids[0] in ids;
      f, k := a.nodes[ids[0]].fragmentId, 0;
    } else {
      StuckLater(a, t, ids, fuel);
      hide ContainsTypename, Leads;
      var below;
      f, below := StuckSomewhere(a, t, ids[1..], fuel);
      k := below + 1;
      OpensCons(a, t, ids, f, k);
    }
  }

  lemma {:induction false} AnswersBoundChains(a: Arena, t: TypeId, ids: seq<nat>, fuel: nat, p: seq<nat>)
    requires Readable(a) && Known(a, ids) && ContainsTypename(a, t, ids, fuel).Some?
    requires OpenChain(a, t, ids, p)
    ensures |p| <= fuel
    decreases |p|
  {
    if p != [] {
      var k :| OpensAt(a, t, ids, p[0], k);
      AnsweredThrough(a, t, ids, p[0], k, fuel);
      AnswersBoundChains(a, t, a.fragments[p[0]].selectionSet, fuel - 1, p[1..]);
    }
  }

  lemma {:induction false} StuckHasChain(a: Arena, t: TypeId, ids: seq<nat>, fuel: nat) returns (p: seq<nat>)
    requires Readable(a) && Known(a, ids) && ContainsTypename(a, t, ids, fuel).None?
    ensures |p| == fuel + 1 && OpenChain(a, t, ids, p)
    ensures forall i | 0 <= i < |p| :: p[i] < |a.fragments|
    decreases fuel
  {
    var f, k := StuckSomewhere(a, t, ids, fuel);
    if fuel == 0 {
      p := [f];
    } else {
      var q := StuckHasChain(a, t, a.fragments[f].selectionSet, fuel - 1);
      p := [f] + q;
      assert p[1..] == q;
    }
  }

  // ----- Going round -----

  /** The selections the search is at after going into the fragments of `p`. */
  function At(a: Arena, ids: seq<nat>, p: seq<nat>): seq<nat>
    requires forall i | 0 <= i < |p| :: p[i] < |a.fragments|
  {
    if p == [] then ids else a.fragments[p[|p| - 1]].selectionSet
  }

  lemma {:induction false} ChainParts(a: Arena, t: TypeId, ids: seq<nat>, p: seq<nat>, q: seq<nat>)
    requires Readable(a) && Known(a, ids)
    ensures OpenChain(a, t, ids, p) ==> forall i | 0 <= i < |p| :: p[i] < |a.fragments|
    ensures OpenChain(a, t, ids, p) ==> Known(a, At(a, ids, p))
    ensures OpenChain(a, t, ids, p + q) <==> OpenChain(a, t, ids, p) && OpenChain(a, t, At(a, ids, p), q)
    decreases |p|
  {
    if p == [] {
      assert p + q == q;
    } else {
      assert (p + q)[0] == p[0] && (p + q)[1..] == p[1..] + q;
      if Opens(a, t, ids, p[0]) {
        ChainParts(a, t, a.fragments[p[0]].selectionSet, p[1..], q);
      }
    }
  }

  /** Going round a circle at the end of a chain as often as it takes to make the chain long. */
  lemma {:induction false} Pump(a: Arena, t: TypeId, ids: seq<nat>, p: seq<nat>, i: nat, n: nat) returns (q: seq<nat>)
    requires Readable(a) && Known(a, ids) && OpenChain(a, t, ids, p)
    requires i < |p| - 1 && p[i] == p[|p| - 1]
    ensures OpenChain(a, t, ids, q) && |q| >= n
    decreases n - |p|
  {
    if |p| >= n {
      q := p;
    } else {
      ChainParts(a, t, ids, p[..i + 1], p[i + 1..]);
      assert p[..i + 1] + p[i + 1..] == p;
      ChainParts(a, t, ids, p, p[i + 1..]);
      q := Pump(a, t, ids, p + p[i + 1..], i, n);
    }
  }

  lemma CirclesNeverAnswer(a: Arena, t: TypeId, ids: seq<nat>, fuel: nat)
    requires Readable(a) && Known(a, ids) && Circles(a, t, ids)
    ensures ContainsTypename(a, t, ids, fuel).None?
  {
    var p, i, j :| OpenChain(a, t, ids, p) && 0 <= i < j < |p| && p[i] == p[j];
    assert p[..j + 1] + p[j + 1..] == p;
    ChainParts(a, t, ids, p[..j + 1], p[j + 1..]);
    var long := Pump(a, t, ids, p[..j + 1], i, fuel + 1);
    if ContainsTypename(a, t, ids, fuel).Some? {
      AnswersBoundChains(a, t, ids, fuel, long);
    }
  }

  /**
   The search through any list of selections ends exactly when it cannot be led into a
   circle.  Then as many spreads as there are fragments are enough, and the answer is
   whether `__typename` can be reached.
   */
  lemma SearchEndsExactlyWhen(a: Arena, t: TypeId, ids: seq<nat>, fuel: nat)
    requires Readable(a) && Known(a, ids)
    ensures (exists enough :: ContainsTypename(a, t, ids, enough).Some?) <==> !Circles(a, t, ids)
    ensures !Circles(a, t, ids) && fuel >= |a.fragments| ==> ContainsTypename(a, t, ids, fuel) == Some(Leads(a, t, ids))
  {
    if Circles(a, t, ids) {
      forall enough: nat ensures ContainsTypename(a, t, ids, enough).None? {
        CirclesNeverAnswer(a, t, ids, enough);
      }
    } else {
      var enough := fuel + |a.fragments|;
      OffCirclesAnswers(a, t, ids, enough);
      assert ContainsTypename(a, t, ids, enough).Some?;
      if fuel >= |a.fragments| {
        OffCirclesAnswers(a, t, ids, fuel);
      }
    }
  }

  lemma OffCirclesAnswers(a: Arena, t: TypeId, ids: seq<nat>, fuel: nat)
    requires Readable(a) && Known(a, ids) && !Circles(a, t, ids) && fuel >= |a.fragments|
    ensures ContainsTypename(a, t, ids, fuel) == Some(Leads(a, t, ids))
  {
    var r := ContainsTypename(a, t, ids, fuel);
    if r.None? {
      var p := StuckHasChain(a, t, ids, fuel);
      Pigeonhole(p, |a.fragments|);
    } else {
      TypenameAnswerIsRight(a, t, ids, fuel);
      assert if r.value then r == Some(true) else r == Some(false);
    }
  }

  // ----- A condition without the order of selections -----

  /** A chain of fragments on type `t`, each spread in the one before. */
  predicate SpreadChain(a: Arena, t: TypeId, ids: seq<nat>, p: seq<nat>)
    requires Readable(a)
    decreases |p|
  {
    p == []
    || (&& (exists c | c in ids :: IsSpread(a, t, c, p[0]))
        && SpreadChain(a, t, a.fragments[p[0]].selectionSet, p[1..]))
  }

  /** Fragments on type `t` spread each other in a cycle that can be reached from here. */
  ghost predicate CycleBelow(a: Arena, t: TypeId, ids: seq<nat>)
    requires Readable(a)
  {
    exists p, i, j :: SpreadChain(a, t, ids, p) && 0 <= i < j < |p| && p[i] == p[j]
  }

  lemma {:induction false} OpenIsSpread(a: Arena, t: TypeId, ids: seq<nat>, p: seq<nat>)
    requires Readable(a) && Known(a, ids) && OpenChain(a, t, ids, p)
    ensures SpreadChain(a, t, ids, p)
    decreases |p|
  {
    if p != [] {
      var k :| OpensAt(a, t, ids, p[0], k);
      assert ids[k] in ids;
      OpenIsSpread(a, t, a.fragments[p[0]].selectionSet, p[1..]);
    }
  }

  /** Without a cycle of spreads on the same type, the search ends, whatever the order of selections. */
  lemma TypenameSearchEnds(a: Arena, t: TypeId, ids: seq<nat>)
    requires Readable(a) && Known(a, ids) && !CycleBelow(a, t, ids)
    ensures ContainsTypename(a, t, ids, |a.fragments|) == Some(Leads(a, t, ids))
  {
    if Circles(a, t, ids) {
      var p, i, j :| OpenChain(a, t, ids, p) && 0 <= i < j < |p| && p[i] == p[j];
      OpenIsSpread(a, t, ids, p);
    }
    SearchEndsExactlyWhen(a, t, ids, |a.fragments|);
  }

  // ----- Two fragments that spread each other -----

  /** A spread, and perhaps `__typename` after it. */
  function SpreadOf(name: string, named: bool): seq<Ast.Selection> {
    if named then [Ast.FragmentSpread(name, []), TYPENAME_SELECTION] else [Ast.FragmentSpread(name, [])]
  }

  /** Each of two fragments on the type spreads the other; the first may select `__typename` after that. */
  function Mutual(on: string, named: bool): Ast.Document {
    Ast.Document([Ast.Fragment("A", on, [], SpreadOf("B", named)), Ast.Fragment("B", on, [], SpreadOf("A", false))])
  }

  const TYPENAME_SELECTION: Ast.Selection := Ast.Field(None, TYPENAME_FIELD, [], [], [])

  /** What the document resolves to. */
  function MutualArena(t: TypeId, named: bool): Arena {
    if named then
      Arena([ResolvedFragment("A", t, [0, 1]), ResolvedFragment("B", t, [2])], [],
            [FragmentSpread(1), Typename, FragmentSpread(0)], [OfFragment(0), OfFragment(0), OfFragment(1)], [])
    else
      Arena([ResolvedFragment("A", t, [0]), ResolvedFragment("B", t, [1])], [],
            [FragmentSpread(1), FragmentSpread(0)], [OfFragment(0), OfFragment(1)], [])
  }

  function LaidSpread(f: nat, named: bool, p: Parent, base: nat): Laid {
    if named then Laid([FragmentSpread(f), Typename], [p, p], [base, base + 1])
    else Laid([FragmentSpread(f)], [p], [base])
  }

  lemma LayoutOfSpread(schema: Schema, heads: seq<ResolvedFragment>, t: TypeId, name: string, named: bool,
                       p: Parent, base: nat)
    requires schema.Valid() && schema.Has(t) && schema.IsComposite(t) && FindFragment(heads, name).Some?
    ensures Layout(schema, heads, t, SpreadOf(name, named), p, base)
              == Success(LaidSpread(FindFragment(heads, name).value, named, p, base))
  {
    hide Layout, LayoutOne;
    var one, two := SpreadOf(name, false), SpreadOf(name, true);
    LayoutNothing(schema, heads, t, p, base);
    LayoutOfEach(schema, heads, t, name, p, base);
    LayoutOfEach(schema, heads, t, name, p, base + 1);
    assert one[..|one| - 1] == [] && two[..|two| - 1] == one;
    LayoutMore(schema, heads, t, one, p, base);
    LayoutMore(schema, heads, t, two, p, base);
    var spread := LaidSpread(FindFragment(heads, name).value, false, p, base);
    AfterNothing(spread);
    assert Layout(schema, heads, t, one, p, base) == Success(spread);
    var both := LaidSpread(FindFragment(heads, name).value, true, p, base);
    assert spread.nodes + [Typename] == both.nodes && spread.parents + [p] == both.parents;
    assert spread.ids + [base + 1] == both.ids;
  }

  lemma AfterNothing(l: Laid)
    ensures Laid([] + l.nodes, [] + l.parents, [] + l.ids) == l
  {
    assert [] + l.nodes == l.nodes && [] + l.parents == l.parents && [] + l.ids == l.ids;
  }

  lemma LayoutOfEach(schema: Schema, heads: seq<ResolvedFragment>, t: TypeId, name: string, p: Parent, base: nat)
    requires schema.Valid() && schema.Has(t) && schema.IsComposite(t) && FindFragment(heads, name).Some?
    ensures LayoutOne(schema, heads, t, Ast.FragmentSpread(name, []), p, base)
              == Success(LaidSpread(FindFragment(heads, name).value, false, p, base))
    ensures LayoutOne(schema, heads, t, TYPENAME_SELECTION, p, base) == Success(Laid([Typename], [p], [base]))
  {
  }

  lemma RootsOfMutual(schema: Schema, on: string, named: bool)
    requires schema.FindType(on).Some?
    ensures var t := schema.FindType(on).value;
            WithRoots(schema, NOTHING, Mutual(on, named).definitions)
              == Success(NOTHING.(fragments := [ResolvedFragment("A", t, []), ResolvedFragment("B", t, [])]))
  {
    var defs := Mutual(on, named).definitions;
    assert defs[..1][..0] == [] && defs[..2] == defs && defs[..2][..1] == defs[..1];
    assert WithRoots(schema, NOTHING, []) == Success(NOTHING);
    var t := schema.FindType(on).value;
    var first := WithRoot(schema, NOTHING, defs[0]).value;
    assert WithRoots(schema, NOTHING, defs[..1]) == Success(first);
    assert first.fragments == [ResolvedFragment("A", t, [])];
    var second := WithRoot(schema, first, defs[1]);
    assert second.Success?;
    assert WithRoots(schema, NOTHING, defs[..2]) == second;
    assert second.value.fragments == [ResolvedFragment("A", t, []), ResolvedFragment("B", t, [])];
  }

  lemma DefinitionOfMutual(schema: Schema, a: Arena, on: string, name: string, spread: string, named: bool)
    requires schema.Valid() && schema.FindType(on).Some? && NeedsTypename(schema.FindType(on).value)
    requires FindFragment(a.fragments, name).Some? && FindFragment(a.fragments, spread).Some?
    ensures var p := OfFragment(FindFragment(a.fragments, name).value);
            WithDefinition(schema, a, Ast.Fragment(name, on, [], SpreadOf(spread, named)))
              == Success(Grow(a, p, LaidSpread(FindFragment(a.fragments, spread).value, named, p, |a.nodes|)))
  {
    var p := OfFragment(FindFragment(a.fragments, name).value);
    SameHeads(a.fragments, spread);
    LayoutOfSpread(schema, Heads(a.fragments), schema.FindType(on).value, spread, named, p, |a.nodes|);
    hide Layout, FindFragment;
    assert a.(variables := a.variables + []) == a;
  }

  lemma FindBoth(fragments: seq<ResolvedFragment>)
    requires |fragments| == 2 && fragments[0].name == "A" && fragments[1].name == "B"
    ensures FindFragment(fragments, "A") == Some(0) && FindFragment(fragments, "B") == Some(1)
  {
    assert "A"[0] != "B"[0];
  }

  /** The arena after A. */
  function HalfArena(t: TypeId, named: bool): Arena {
    var end := MutualArena(t, named);
    var n := |end.nodes| - 1;
    Arena([end.fragments[0], ResolvedFragment("B", t, [])], [], end.nodes[..n], end.parents[..n], [])
  }

  lemma FirstOfMutual(t: TypeId, named: bool)
    ensures var a := NOTHING.(fragments := [ResolvedFragment("A", t, []), ResolvedFragment("B", t, [])]);
            Grow(a, OfFragment(0), LaidSpread(1, named, OfFragment(0), 0)) == HalfArena(t, named)
  {
    var a := NOTHING.(fragments := [ResolvedFragment("A", t, []), ResolvedFragment("B", t, [])]);
    var l, half := LaidSpread(1, named, OfFragment(0), 0), HalfArena(t, named);
    AfterNothing(l);
    assert Grow(a, OfFragment(0), l).fragments == half.fragments;
    assert l.nodes == half.nodes && l.parents == half.parents;
  }

  lemma SecondOfMutual(t: TypeId, named: bool)
    ensures var half := HalfArena(t, named);
            Grow(half, OfFragment(1), LaidSpread(0, false, OfFragment(1), |half.nodes|)) == MutualArena(t, named)
  {
    var half, end := HalfArena(t, named), MutualArena(t, named);
    var l := LaidSpread(0, false, OfFragment(1), |half.nodes|);
    AfterNothing(l);
    assert Grow(half, OfFragment(1), l).fragments == end.fragments;
    assert end.nodes == half.nodes + [FragmentSpread(0)] && end.parents == half.parents + [OfFragment(1)];
  }

  /** The document can be resolved, with any schema that has the type. */
  lemma MutualResolves(schema: Schema, on: string, named: bool)
    requires schema.Valid() && schema.FindType(on).Some? && NeedsTypename(schema.FindType(on).value)
    ensures Resolved(schema, Mutual(on, named)) == Success(MutualArena(schema.FindType(on).value, named))
  {
    var t := schema.FindType(on).value;
    var a := NOTHING.(fragments := [ResolvedFragment("A", t, []), ResolvedFragment("B", t, [])]);
    var half := HalfArena(t, named);
    FindBoth(a.fragments);
    FindBoth(half.fragments);
    hide WithDefinition, FindFragment, MutualArena, HalfArena, Grow, LaidSpread, WithRoots;
    RootsOfMutual(schema, on, named);
    DefinitionOfMutual(schema, a, on, "A", "B", named);
    FirstOfMutual(t, named);
    DefinitionOfMutual(schema, half, on, "B", "A", false);
    SecondOfMutual(t, named);
    var defs := Mutual(on, named).definitions;
    assert defs[..1][..0] == [] && defs[..2] == defs && defs[..2][..1] == defs[..1];
    assert WithDefinitions(schema, a, defs[..1]) == Success(half);
  }

  lemma SpreadEachOther(a: Arena, t: TypeId, f: nat, g: nat)
    requires Readable(a) && f < |a.fragments| && g < |a.fragments|
    requires Opens(a, t, a.fragments[f].selectionSet, g) && Opens(a, t, a.fragments[g].selectionSet, f)
    ensures Circles(a, t, a.fragments[f].selectionSet)
  {
    var p := [g, f, g];
    assert p[1..] == [f, g] && [f, g][1..] == [g] && [g][1..] == [];
    assert OpenChain(a, t, a.fragments[g].selectionSet, []);
    assert OpenChain(a, t, a.fragments[f].selectionSet, [g]);
    assert OpenChain(a, t, a.fragments[g].selectionSet, [f, g]);
    assert OpenChain(a, t, a.fragments[f].selectionSet, p) && p[0] == p[2];
  }

  /** A fragment whose first selection spreads another on the same type. */
  lemma OpensFirst(a: Arena, t: TypeId, ids: seq<nat>, f: nat)
    requires Readable(a) && Known(a, ids) && ids != [] && IsSpread(a, t, ids[0], f)
    ensures Opens(a, t, ids, f)
  {
    assert forall spreads :: !LeadsToTypename(a, t, [], spreads);
    assert OpensAt(a, t, ids, f, 0);
  }

  /**
   The document passes everything before the checks, with any schema that has a union or
   interface of the name; but then `resolve` does not return, even if `__typename` is
   selected on it: it comes after the spread.
   */
  lemma MutualFragmentsNeverEnd(schema: Schema, on: string, named: bool, fuel: nat)
    requires schema.Valid() && schema.FindType(on).Some? && NeedsTypename(schema.FindType(on).value)
    ensures var a := Resolved(schema, Mutual(on, named));
            && a.Success? && Readable(a.value) && FieldsKnown(schema, a.value)
            && Verdict(Answers(schema, a.value, fuel)) == None
  {
    MutualResolves(schema, on, named);
    hide Resolved, MutualArena, Answers, Verdict, Readable, FieldsKnown;
    MutualSpreadsCircle(schema, schema.FindType(on).value, named, fuel);
  }

  lemma MutualSpreadsCircle(schema: Schema, t: TypeId, named: bool, fuel: nat)
    requires NeedsTypename(t)
    ensures var a := MutualArena(t, named);
            Readable(a) && FieldsKnown(schema, a) && Verdict(Answers(schema, a, fuel)) == None
  {
    var a := MutualArena(t, named);
    OpensFirst(a, t, a.fragments[0].selectionSet, 1);
    OpensFirst(a, t, a.fragments[1].selectionSet, 0);
    SpreadEachOther(a, t, 0, 1);
    CirclesNeverAnswer(a, t, a.fragments[0].selectionSet, fuel);
    assert Answers(schema, a, fuel)[0] == FragmentAnswer(a, 0, fuel);
    VerdictAt(Answers(schema, a, fuel), 0);
  }
}
