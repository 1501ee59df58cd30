/** What the struct of a variant contains, against what the selections on the variant call for. */
module VariantContents {
  import opened Schemas
  import opened Arenas
  import opened ArenaShape
  import opened ReadBack
  import opened Walks
  import opened UsedTypes
  import opened Expansion
  import opened ExpandedSelections

  /** What one selection on variant `v` calls for by itself. */
  function OwnParts(cx: Context, m: nat, v: TypeId, s: nat): Parts
    requires Ready(cx) && m < |cx.a.nodes| && cx.schema.Has(v)
  {
    NodeAt(cx.schema, cx.a, m);
    match cx.a.nodes[m]
    case InlineFragment(_, ids) => PartsFor(cx, ids, v, s)
    case FragmentSpread(f) => Parts([SpreadField(cx, f, s)], [], [])
    case _ => NONE
  }

  /** What all of them call for, in order. */
  function OwnPartsOfEach(cx: Context, ms: seq<nat>, v: TypeId, s: nat): Parts
    requires Ready(cx) && AllNodes(cx.a, ms) && cx.schema.Has(v)
  {
    if ms == [] then NONE
    else OwnPartsOfEach(cx, ms[..|ms| - 1], v, s).And(OwnParts(cx, ms[|ms| - 1], v, s))
  }

  /** What an inline fragment gets instead: the parts of the selections under `first`. */
  function FirstParts(cx: Context, first: nat, v: TypeId, s: nat): Parts
    requires Ready(cx) && first < |cx.a.nodes| && cx.schema.Has(v)
  {
    NodeAt(cx.schema, cx.a, first);
    PartsFor(cx, cx.a.nodes[first].Subselection(), v, s)
  }

  /** What is pushed for one selection. */
  function Given(cx: Context, m: nat, first: nat, v: TypeId, s: nat): Parts
    requires Ready(cx) && m < |cx.a.nodes| && first < |cx.a.nodes| && cx.schema.Has(v)
  {
    if cx.a.nodes[m].InlineFragment? then FirstParts(cx, first, v, s) else OwnParts(cx, m, v, s)
  }

  lemma GivenIsPushed(cx: Context, ms: seq<nat>, first: nat, v: TypeId, s: nat)
    requires Ready(cx) && AllNodes(cx.a, ms) && first < |cx.a.nodes| && cx.schema.Has(v) && ms != []
    ensures PartsOfEach(cx, ms, first, v, s) ==
            PartsOfEach(cx, ms[..|ms| - 1], first, v, s).And(Given(cx, ms[|ms| - 1], first, v, s))
  {
    hide PartsFor;
    NodeAt(cx.schema, cx.a, first);
    NodeAt(cx.schema, cx.a, ms[|ms| - 1]);
  }

  /** The inline fragment calls for what the selections under `first` call for. */
  predicate Agrees(cx: Context, m: nat, first: nat, v: TypeId, s: nat)
    requires Ready(cx) && m < |cx.a.nodes| && first < |cx.a.nodes| && cx.schema.Has(v)
  {
    cx.a.nodes[m].InlineFragment? ==> OwnParts(cx, m, v, s) == FirstParts(cx, first, v, s)
  }

  /** Selection by selection, the struct has got what those so far call for. */
  ghost predicate GotItsOwn(cx: Context, ms: seq<nat>, first: nat, v: TypeId, s: nat)
    requires Ready(cx) && AllNodes(cx.a, ms) && first < |cx.a.nodes| && cx.schema.Has(v)
  {
    forall n | 0 <= n <= |ms| :: PartsOfEach(cx, ms[..n], first, v, s) == OwnPartsOfEach(cx, ms[..n], v, s)
  }

  lemma AndCancels(p: Parts, q: Parts, r: Parts)
    requires p.And(q) == p.And(r)
    ensures q == r
  {
    assert q.fields == p.And(q).fields[|p.fields|..] == p.And(r).fields[|p.fields|..] == r.fields;
    assert q.variants == p.And(q).variants[|p.variants|..] == p.And(r).variants[|p.variants|..] == r.variants;
    assert q.aliases == p.And(q).aliases[|p.aliases|..] == p.And(r).aliases[|p.aliases|..] == r.aliases;
  }

  /** One selection more: what is pushed for it is its own exactly if it agrees. */
  lemma OneMore(cx: Context, ms: seq<nat>, n: nat, first: nat, v: TypeId, s: nat)
    requires Ready(cx) && AllNodes(cx.a, ms) && first < |cx.a.nodes| && cx.schema.Has(v) && n < |ms|
    requires PartsOfEach(cx, ms[..n], first, v, s) == OwnPartsOfEach(cx, ms[..n], v, s)
    ensures PartsOfEach(cx, ms[..n + 1], first, v, s) == OwnPartsOfEach(cx, ms[..n + 1], v, s) <==>
            Agrees(cx, ms[n], first, v, s)
  {
    hide Ready, OwnParts, FirstParts;
    var upto := ms[..n + 1];
    assert upto[..|upto| - 1] == ms[..n] && upto[|upto| - 1] == ms[n];
    GivenIsPushed(cx, upto, first, v, s);
    if PartsOfEach(cx, upto, first, v, s) == OwnPartsOfEach(cx, upto, v, s) {
      AndCancels(OwnPartsOfEach(cx, ms[..n], v, s), Given(cx, ms[n], first, v, s), OwnParts(cx, ms[n], v, s));
    }
  }

  /**
   The struct of a variant gets, one after the other, what each of the selections on the
   variant calls for, exactly if each inline fragment among them calls for what the
   selections under the first of them call for.
   */
  lemma GetsItsOwnExactlyWhen(cx: Context, ms: seq<nat>, first: nat, v: TypeId, s: nat)
    requires Ready(cx) && AllNodes(cx.a, ms) && first < |cx.a.nodes| && cx.schema.Has(v)
    ensures GotItsOwn(cx, ms, first, v, s) ==> forall k | 0 <= k < |ms| :: Agrees(cx, ms[k], first, v, s)
    ensures (forall k | 0 <= k < |ms| :: Agrees(cx, ms[k], first, v, s)) ==> GotItsOwn(cx, ms, first, v, s)
  {
    hide Ready, Agrees, PartsOfEach, OwnPartsOfEach;
    if GotItsOwn(cx, ms, first, v, s) {
      forall k | 0 <= k < |ms| ensures Agrees(cx, ms[k], first, v, s) {
        OneMore(cx, ms, k, first, v, s);
      }
    }
    if forall k | 0 <= k < |ms| :: Agrees(cx, ms[k], first, v, s) {
      forall n | 0 <= n <= |ms|
        ensures PartsOfEach(cx, ms[..n], first, v, s) == OwnPartsOfEach(cx, ms[..n], v, s)
      {
        AgreeingGet(cx, ms, n, first, v, s);
      }
    }
  }

  lemma {:induction false} AgreeingGet(cx: Context, ms: seq<nat>, n: nat, first: nat, v: TypeId, s: nat)
    requires Ready(cx) && AllNodes(cx.a, ms) && first < |cx.a.nodes| && cx.schema.Has(v) && n <= |ms|
    requires forall k | 0 <= k < |ms| :: Agrees(cx, ms[k], first, v, s)
    ensures PartsOfEach(cx, ms[..n], first, v, s) == OwnPartsOfEach(cx, ms[..n], v, s)
  {
    hide Ready, Agrees;
    if n > 0 {
      AgreeingGet(cx, ms, n - 1, first, v, s);
      OneMore(cx, ms, n - 1, first, v, s);
    }
  }

  /** As when at most one of the selections is an inline fragment, and it comes first. */
  lemma OneInlineFirstGetsItsOwn(cx: Context, ms: seq<nat>, v: TypeId, s: nat)
    requires Ready(cx) && AllNodes(cx.a, ms) && cx.schema.Has(v) && ms != []
    requires forall k | 0 < k < |ms| :: !cx.a.nodes[ms[k]].InlineFragment?
    requires |ms| > 1 || cx.a.nodes[ms[0]].InlineFragment?
    ensures VariantParts(cx, ms, v, s) == OwnPartsOfEach(cx, ms, v, s)
  {
    hide PartsFor, PartsOfEach, OwnPartsOfEach;
    AgreeingGet(cx, ms, |ms|, ms[0], v, s);
    assert ms[..|ms|] == ms;
  }

  // ----- Fields that are missing -----

  /** Some selection is the spread this field stands for. */
  ghost predicate OfSpread(cx: Context, ms: seq<nat>, v: TypeId, s: nat, e: ExpandedField)
    requires Ready(cx) && AllNodes(cx.a, ms) && cx.schema.Has(v)
  {
    exists k | 0 <= k < |ms| && !cx.a.nodes[ms[k]].InlineFragment? :: e in OwnParts(cx, ms[k], v, s).fields
  }

  predicate HasInline(cx: Context, ms: seq<nat>)
    requires AllNodes(cx.a, ms)
  {
    exists k | 0 <= k < |ms| :: cx.a.nodes[ms[k]].InlineFragment?
  }

  lemma OfOneMore(cx: Context, ms: seq<nat>, v: TypeId, s: nat, e: ExpandedField)
    requires Ready(cx) && AllNodes(cx.a, ms) && cx.schema.Has(v) && ms != []
    ensures var init, last := ms[..|ms| - 1], ms[|ms| - 1];
            && (HasInline(cx, ms) <==> HasInline(cx, init) || cx.a.nodes[last].InlineFragment?)
            && (OfSpread(cx, ms, v, s, e) <==>
                  || OfSpread(cx, init, v, s, e)
                  || (!cx.a.nodes[last].InlineFragment? && e in OwnParts(cx, last, v, s).fields))
  {
    hide Ready, OwnParts;
    var init := ms[..|ms| - 1];
    assert forall k | 0 <= k < |init| :: init[k] == ms[k];
  }

  /** The fields of the struct: those of the spreads and, if there is an inline fragment, those under `first`. */
  lemma {:induction false} FieldsAre(cx: Context, ms: seq<nat>, first: nat, v: TypeId, s: nat, e: ExpandedField)
    requires Ready(cx) && AllNodes(cx.a, ms) && first < |cx.a.nodes| && cx.schema.Has(v)
    ensures e in PartsOfEach(cx, ms, first, v, s).fields <==>
            OfSpread(cx, ms, v, s, e) || (HasInline(cx, ms) && e in FirstParts(cx, first, v, s).fields)
  {
    if ms == [] {
      assert PartsOfEach(cx, ms, first, v, s) == NONE;
    } else {
      hide Ready, OwnParts, FirstParts, PartsOfEach, OfSpread, HasInline;
      var init := ms[..|ms| - 1];
      FieldsAre(cx, init, first, v, s, e);
      GivenIsPushed(cx, ms, first, v, s);
      OfOneMore(cx, ms, v, s, e);
    }
  }

  /** Every field called for is in the struct. */
  ghost predicate NoneLost(cx: Context, ms: seq<nat>, first: nat, v: TypeId, s: nat)
    requires Ready(cx) && AllNodes(cx.a, ms) && first < |cx.a.nodes| && cx.schema.Has(v)
  {
    forall k, e | 0 <= k < |ms| && e in OwnParts(cx, ms[k], v, s).fields :: e in PartsOfEach(cx, ms, first, v, s).fields
  }

  /** Every field under an inline fragment is also called for under the first selection, or by a spread. */
  ghost predicate InlinesUnderFirst(cx: Context, ms: seq<nat>, first: nat, v: TypeId, s: nat)
    requires Ready(cx) && AllNodes(cx.a, ms) && first < |cx.a.nodes| && cx.schema.Has(v)
  {
    forall k, e | 0 <= k < |ms| && cx.a.nodes[ms[k]].InlineFragment? && e in OwnParts(cx, ms[k], v, s).fields ::
      e in FirstParts(cx, first, v, s).fields || OfSpread(cx, ms, v, s, e)
  }

  /**
   Every field that some selection on the variant calls for is in the struct, exactly if
   every field under an inline fragment is also called for under the first selection, or
   stands for a spread on the variant.
   */
  lemma {:induction false} NoFieldIsLostExactlyWhen(cx: Context, ms: seq<nat>, first: nat, v: TypeId, s: nat)
    requires Ready(cx) && AllNodes(cx.a, ms) && first < |cx.a.nodes| && cx.schema.Has(v)
    ensures NoneLost(cx, ms, first, v, s) ==> InlinesUnderFirst(cx, ms, first, v, s)
    ensures InlinesUnderFirst(cx, ms, first, v, s) ==> NoneLost(cx, ms, first, v, s)
  {
    hide Ready, OwnParts, FirstParts, PartsOfEach;
    forall e
      ensures e in PartsOfEach(cx, ms, first, v, s).fields <==>
              OfSpread(cx, ms, v, s, e) || (HasInline(cx, ms) && e in FirstParts(cx, first, v, s).fields)
    {
      FieldsAre(cx, ms, first, v, s, e);
    }
  }

  // ----- Repetition -----

  function Times(n: nat, p: Parts): Parts {
    if n == 0 then NONE else Times(n - 1, p).And(p)
  }

  /** With inline fragments only, the fields under the first are in the struct once for each of them. */
  lemma {:induction false} FirstIsRepeated(cx: Context, ms: seq<nat>, first: nat, v: TypeId, s: nat)
    requires Ready(cx) && AllNodes(cx.a, ms) && first < |cx.a.nodes| && cx.schema.Has(v)
    requires forall k | 0 <= k < |ms| :: cx.a.nodes[ms[k]].InlineFragment?
    ensures PartsOfEach(cx, ms, first, v, s) == Times(|ms|, FirstParts(cx, first, v, s))
  {
    hide Ready, FirstParts;
    if ms != [] {
      FirstIsRepeated(cx, ms[..|ms| - 1], first, v, s);
      GivenIsPushed(cx, ms, first, v, s);
    }
  }

  function Inlines(cx: Context, ms: seq<nat>): nat
    requires AllNodes(cx.a, ms)
  {
    if ms == [] then 0
    else Inlines(cx, ms[..|ms| - 1]) + if cx.a.nodes[ms[|ms| - 1]].InlineFragment? then 1 else 0
  }

  lemma {:induction false} VariantsAreRepeated(cx: Context, ms: seq<nat>, first: nat, v: TypeId, s: nat)
    requires Ready(cx) && AllNodes(cx.a, ms) && first < |cx.a.nodes| && cx.schema.Has(v)
    ensures PartsOfEach(cx, ms, first, v, s).variants == Times(Inlines(cx, ms), FirstParts(cx, first, v, s)).variants
  {
    hide FirstParts, PartsFor;
    if ms != [] {
      VariantsAreRepeated(cx, ms[..|ms| - 1], first, v, s);
      GivenIsPushed(cx, ms, first, v, s);
    }
  }

  lemma {:induction false} TimesNothing(n: nat, p: Parts)
    requires p.variants == []
    ensures Times(n, p).variants == []
  {
    if n > 0 {
      TimesNothing(n - 1, p);
    }
  }

  /**
   Made for the root or a field, a struct has exactly one variant for each possible type if
   its type is a union or an interface, none if it is not, and none if it is an alias.  Made
   for a variant, it has the variants for the first selection's children once for each inline
   fragment on the variant, and so none if the variant's type is an object.
   */
  ghost predicate HasItsVariants(cx: Context, o: Origin, s: nat, vs: seq<ExpandedVariant>)
    requires Ready(cx) && OriginOk(cx, o)
  {
    match o
    case FromVariant(ms, v) =>
      if |ms| == 1 && cx.a.nodes[ms[0]].FragmentSpread? then vs == []
      else vs == Times(Inlines(cx, ms), FirstParts(cx, ms[0], v, s)).variants && (!IsEnum(v) ==> vs == [])
    case _ =>
      SelectionsKnown(cx, o);
      var (ids, t) := SelectionsOf(cx, o).value;
      if IsEnum(t) && !Lone(cx, ids) then OneVariantEach(cx, ids, t, vs) else vs == []
  }

  /** Every struct of every expansion. */
  lemma EveryStructHasItsVariants(cx: Context, root: Parent, out: Out, j: nat)
    requires Ready(cx) && IsRoot(root) && HasParent(cx.a, root) && Whole(cx, root, out) && j < |out.types|
    ensures j < |out.origins| && OriginOk(cx, out.origins[j])
    ensures HasItsVariants(cx, out.origins[j], j, VariantsOn(out.variants, j))
  {
    assert Settled(cx, out, j);
    if out.origins[j].FromVariant? {
      var FromVariant(ms, v) := out.origins[j];
      hide Ready, PartsFor, PartsOfEach, FirstParts, StructName, Whole;
      VariantGets(cx, ms, v, j);
      if |ms| != 1 || !cx.a.nodes[ms[0]].FragmentSpread? {
        VariantsAreRepeated(cx, ms, ms[0], v, j);
        if !IsEnum(v) {
          NoVariantsUnder(cx, ms[0], v, j);
          TimesNothing(Inlines(cx, ms), FirstParts(cx, ms[0], v, j));
        }
      }
    } else {
      hide Ready, OriginOk, Whole, OneVariantEach;
      EnumsAreExhaustive(cx, out, j);
    }
  }

  lemma NoVariantsUnder(cx: Context, first: nat, v: TypeId, s: nat)
    requires Ready(cx) && first < |cx.a.nodes| && cx.schema.Has(v) && !IsEnum(v)
    ensures FirstParts(cx, first, v, s).variants == []
  {
  }

  // ----- Two selections -----

  lemma NoneAnd(p: Parts)
    ensures NONE.And(p) == p
  {
  }

  lemma OfTwo(cx: Context, i: nat, j: nat, first: nat, v: TypeId, s: nat)
    requires Ready(cx) && AllNodes(cx.a, [i, j]) && i < |cx.a.nodes| && j < |cx.a.nodes| && first < |cx.a.nodes|
    requires cx.schema.Has(v)
    ensures PartsOfEach(cx, [i, j], first, v, s) == Given(cx, i, first, v, s).And(Given(cx, j, first, v, s))
    ensures OwnPartsOfEach(cx, [i, j], v, s) == OwnParts(cx, i, v, s).And(OwnParts(cx, j, v, s))
  {
    hide Ready, Given, OwnParts;
    var ms := [i, j];
    assert ms[..|ms| - 1] == [i] && [i][..|[i]| - 1] == [];
    GivenIsPushed(cx, ms, first, v, s);
    GivenIsPushed(cx, [i], first, v, s);
    NoneAnd(Given(cx, i, first, v, s));
    NoneAnd(OwnParts(cx, i, v, s));
    assert OwnPartsOfEach(cx, [i], v, s) == NONE.And(OwnParts(cx, i, v, s));
  }

  /**
   Of two inline fragments on a variant, the selections of the first are expanded twice, those
   of the second never.
   */
  lemma SecondInlineIsLost(cx: Context, i: nat, j: nat, v: TypeId, s: nat)
    requires Ready(cx) && i < |cx.a.nodes| && j < |cx.a.nodes| && cx.schema.Has(v)
    requires cx.a.nodes[i].InlineFragment? && cx.a.nodes[j].InlineFragment?
    ensures VariantParts(cx, [i, j], v, s) == OwnParts(cx, i, v, s).And(OwnParts(cx, i, v, s))
    ensures OwnPartsOfEach(cx, [i, j], v, s) == OwnParts(cx, i, v, s).And(OwnParts(cx, j, v, s))
  {
    OfTwo(cx, i, j, i, v, s);
    hide Ready, PartsFor, PartsOfEach;
  }

  /** With a spread before an inline fragment, nothing under the inline fragment is expanded. */
  lemma InlineAfterSpreadIsLost(cx: Context, i: nat, j: nat, v: TypeId, s: nat)
    requires Ready(cx) && i < |cx.a.nodes| && j < |cx.a.nodes| && cx.schema.Has(v) && v.ObjectId?
    requires cx.a.nodes[i].FragmentSpread? && cx.a.nodes[j].InlineFragment?
    ensures VariantParts(cx, [i, j], v, s) == OwnParts(cx, i, v, s)
    ensures |OwnParts(cx, i, v, s).fields| == 1
  {
    OfTwo(cx, i, j, i, v, s);
    NodeAt(cx.schema, cx.a, i);
    assert FirstParts(cx, i, v, s) == NONE;
    hide Ready, PartsOfEach;
  }

  // ----- What is rendered -----

  /** A struct that has an alias is rendered as the first of them, whatever else belongs to it. */
  function Rendered(p: Parts): Parts {
    if p.aliases == [] then p else Parts([], [], [p.aliases[0]])
  }

  /** What is under the first selection on the variant is one spread, and an inline fragment brings it in. */
  predicate AliasBelow(cx: Context, ms: seq<nat>, first: nat)
    requires Ready(cx) && AllNodes(cx.a, ms) && first < |cx.a.nodes|
  {
    NodeAt(cx.schema, cx.a, first);
    HasInline(cx, ms) && Lone(cx, cx.a.nodes[first].Subselection())
  }

  lemma GivenAliases(cx: Context, m: nat, first: nat, v: TypeId, s: nat)
    requires Ready(cx) && m < |cx.a.nodes| && first < |cx.a.nodes| && cx.schema.Has(v)
    ensures InTable(cx.a, cx.a.nodes[first].Subselection())
    ensures var below, p := cx.a.nodes[first].Subselection(), Given(cx, m, first, v, s);
            p.aliases ==
            if cx.a.nodes[m].InlineFragment? && Lone(cx, below) then PartsFor(cx, below, v, s).aliases else []
    ensures var below := cx.a.nodes[first].Subselection();
            Lone(cx, below) ==> |PartsFor(cx, below, v, s).aliases| == 1
  {
    NodeAt(cx.schema, cx.a, first);
    NodeAt(cx.schema, cx.a, m);
    hide AllFields, AllVariants, Variants, Walkable, FragmentIsRecursive;
  }

  /** The aliases of a variant's struct: those under the first selection, once for each inline fragment. */
  lemma {:induction false} AliasesAre(cx: Context, ms: seq<nat>, first: nat, v: TypeId, s: nat)
    requires Ready(cx) && AllNodes(cx.a, ms) && first < |cx.a.nodes| && cx.schema.Has(v)
    ensures InTable(cx.a, cx.a.nodes[first].Subselection())
    ensures var aliases, below := PartsOfEach(cx, ms, first, v, s).aliases, cx.a.nodes[first].Subselection();
            && (!AliasBelow(cx, ms, first) ==> aliases == [])
            && (AliasBelow(cx, ms, first) ==>
                  && |PartsFor(cx, below, v, s).aliases| == 1 && aliases != []
                  && aliases[0] == PartsFor(cx, below, v, s).aliases[0])
  {
    NodeAt(cx.schema, cx.a, first);
    if ms == [] {
      assert PartsOfEach(cx, ms, first, v, s) == NONE;
    } else {
      GivenAliases(cx, ms[|ms| - 1], first, v, s);
      hide Ready, PartsFor, Given, PartsOfEach, Lone;
      AliasesAre(cx, ms[..|ms| - 1], first, v, s);
      GivenIsPushed(cx, ms, first, v, s);
      InlinesMore(cx, ms);
    }
  }

  lemma InlinesMore(cx: Context, ms: seq<nat>)
    requires AllNodes(cx.a, ms) && ms != []
    ensures HasInline(cx, ms) <==> HasInline(cx, ms[..|ms| - 1]) || cx.a.nodes[ms[|ms| - 1]].InlineFragment?
  {
    assert forall k | 0 <= k < |ms| - 1 :: ms[..|ms| - 1][k] == ms[k];
  }

  predicate HasSpread(cx: Context, ms: seq<nat>)
    requires AllNodes(cx.a, ms)
  {
    exists k | 0 <= k < |ms| :: cx.a.nodes[ms[k]].FragmentSpread?
  }

  lemma SpreadsMore(cx: Context, ms: seq<nat>)
    requires AllNodes(cx.a, ms) && ms != []
    ensures HasSpread(cx, ms) <==> HasSpread(cx, ms[..|ms| - 1]) || cx.a.nodes[ms[|ms| - 1]].FragmentSpread?
  {
    assert forall k | 0 <= k < |ms| - 1 :: ms[..|ms| - 1][k] == ms[k];
  }

  /** With one spread under the first selection, the only fields are those of spreads on the variant. */
  lemma {:induction false} OnlySpreadsAdd(cx: Context, ms: seq<nat>, first: nat, v: TypeId, s: nat)
    requires Ready(cx) && AllNodes(cx.a, ms) && first < |cx.a.nodes| && cx.schema.Has(v)
    requires InTable(cx.a, cx.a.nodes[first].Subselection()) && Lone(cx, cx.a.nodes[first].Subselection())
    ensures var p := PartsOfEach(cx, ms, first, v, s);
            p.variants == [] && (p.fields == [] <==> !HasSpread(cx, ms))
  {
    if ms == [] {
      assert PartsOfEach(cx, ms, first, v, s) == NONE;
    } else {
      GivenToLone(cx, ms[|ms| - 1], first, v, s);
      hide Ready, PartsFor, Given, PartsOfEach, Lone, HasSpread;
      OnlySpreadsAdd(cx, ms[..|ms| - 1], first, v, s);
      GivenIsPushed(cx, ms, first, v, s);
      SpreadsMore(cx, ms);
    }
  }

  lemma GivenToLone(cx: Context, m: nat, first: nat, v: TypeId, s: nat)
    requires Ready(cx) && m < |cx.a.nodes| && first < |cx.a.nodes| && cx.schema.Has(v)
    requires InTable(cx.a, cx.a.nodes[first].Subselection()) && Lone(cx, cx.a.nodes[first].Subselection())
    ensures var p := Given(cx, m, first, v, s);
            p.variants == [] && (p.fields == [] <==> !cx.a.nodes[m].FragmentSpread?)
  {
    NodeAt(cx.schema, cx.a, m);
    hide AllFields, AllVariants, Variants, Walkable, FragmentIsRecursive;
  }

  /**
   All fields and variants of a variant's struct are rendered, unless there is one spread
   under the first selection, which makes the struct an alias, and another spread on the
   variant: then that one is left out.
   */
  lemma {:induction false} AllRenderedExactlyWhen(cx: Context, ms: seq<nat>, v: TypeId, s: nat)
    requires Ready(cx) && OriginOk(cx, FromVariant(ms, v)) && |ms| > 1
    ensures var p, r := PartsOf(cx, FromVariant(ms, v), s), Rendered(PartsOf(cx, FromVariant(ms, v), s));
            && r.fields == (if AliasBelow(cx, ms, ms[0]) then [] else p.fields)
            && (r.fields == p.fields && r.variants == p.variants <==>
                  !(AliasBelow(cx, ms, ms[0]) && HasSpread(cx, ms)))
  {
    VariantGets(cx, ms, v, s);
    NodeAt(cx.schema, cx.a, ms[0]);
    hide Ready, PartsFor, PartsOfEach, Lone, HasSpread, HasInline;
    AliasesAre(cx, ms, ms[0], v, s);
    if AliasBelow(cx, ms, ms[0]) {
      OnlySpreadsAdd(cx, ms, ms[0], v, s);
    }
  }
}
