/** Two fragments that spread each other pass all checks, and have structs of no finite size. */
module MutualFragments {
  import opened Wrappers
  import Ast
  import opened Schemas
  import opened Arenas
  import opened Resolver
  import opened ReadBack
  import opened Resolution
  import opened Validation
  import opened Walks
  import opened UsedTypes
  import opened Expansion
  import opened ExpandedSelections
  import opened ReadyQueries
  import opened ResolvedVariables
  import opened ResponseSizes
  import opened LossyQueries

  /** One object type with the field a. */
  const ONE_OBJECT: Schema := Schema(
    [StoredObject("Query", [0], [])], [StoredField("a", FieldType(ScalarId(0), []), OfObject(0), None)],
    [], [], ["String"], [], [], map["Query" := ObjectId(0), "String" := ScalarId(0)], Some(0), None, None)

  function Items(name: string): seq<Ast.Selection> {
    [Plain("a"), Ast.FragmentSpread(name, [])]
  }

  /** `fragment A on Query { a ...B } fragment B on Query { a ...A } query Q { a ...A }` */
  const MUTUAL: Ast.Document := Ast.Document([
    Ast.Fragment("A", "Query", [], Items("B")), Ast.Fragment("B", "Query", [], Items("A")),
    Ast.Operation(Ast.Query, Some("Q"), [], [], Items("A"))])

  /** The arena when the first `n` definitions are resolved. */
  function Stage(n: nat): Arena
    requires n <= 3
  {
    Arena(
      [ResolvedFragment("A", ObjectId(0), if n > 0 then [0, 1] else []),
       ResolvedFragment("B", ObjectId(0), if n > 1 then [2, 3] else [])],
      [ResolvedOperation("Q", Ast.Query, 0, if n > 2 then [4, 5] else [])],
      [Field(None, 0, []), FragmentSpread(1), Field(None, 0, []), FragmentSpread(0),
       Field(None, 0, []), FragmentSpread(0)][..2 * n],
      [OfFragment(0), OfFragment(0), OfFragment(1), OfFragment(1), OfOperation(0), OfOperation(0)][..2 * n],
      [])
  }

  lemma ObjectIsValid()
    ensures ONE_OBJECT.Valid() && OutputTyped(ONE_OBJECT)
  {
  }

  function LaidPair(f: nat, p: Parent, base: nat): Laid {
    Laid([Field(None, 0, []), FragmentSpread(f)], [p, p], [base, base + 1])
  }

  lemma PairLaid(heads: seq<ResolvedFragment>, name: string, f: nat, p: Parent, base: nat)
    requires FindFragment(heads, name) == Some(f)
    ensures ONE_OBJECT.Valid()
    ensures Layout(ONE_OBJECT, heads, ObjectId(0), Items(name), p, base) == Success(LaidPair(f, p, base))
  {
    ObjectIsValid();
    assert "a" != TYPENAME_FIELD by {
      assert TYPENAME_FIELD[0] == '_';
    }
    var items, l, m := Items(name), LaidPlain(Field(None, 0, []), p, base), LaidPlain(FragmentSpread(f), p, base + 1);
    LayoutNothing(ONE_OBJECT, heads, ScalarId(0), OfField(base), base + 1);
    NothingAfter(l);
    assert FindField(ONE_OBJECT, [0], "a") == Some(0);
    assert LayoutOne(ONE_OBJECT, heads, ObjectId(0), items[0], p, base) == Success(l);
    assert LayoutOne(ONE_OBJECT, heads, ObjectId(0), items[1], p, base + 1) == Success(m);
    hide Layout, LayoutOne;
    LaidOne(ONE_OBJECT, heads, ObjectId(0), items[0], p, base, l);
    assert items[..1] == [items[0]];
    LayoutMore(ONE_OBJECT, heads, ObjectId(0), items, p, base);
    var pair := LaidPair(f, p, base);
    assert l.nodes + m.nodes == pair.nodes && l.parents + m.parents == pair.parents && l.ids + m.ids == pair.ids;
  }

  lemma FragmentsFound(n: nat)
    requires n <= 3
    ensures var a := Stage(n);
            && FindFragment(a.fragments, "A") == FindFragment(Heads(a.fragments), "A") == Some(0)
            && FindFragment(a.fragments, "B") == FindFragment(Heads(a.fragments), "B") == Some(1)
            && FindOperation(a.operations, "Q") == Some(0)
  {
    var a := Stage(n);
    assert "A"[0] != "B"[0];
    assert a.fragments[..1] == [a.fragments[0]] && a.fragments[..1][..0] == [] && a.operations[..0] == [];
    var heads := Heads(a.fragments);
    assert heads[..1] == [heads[0]] && heads[..1][..0] == [];
  }

  /** Resolving a definition of the document. */
  lemma PairResolved(a: Arena, d: Ast.Definition, p: Parent, name: string, f: nat)
    requires ONE_OBJECT.Valid() && d.selectionSet == Items(name) && (d.Operation? ==> d.variables == [])
    requires PlaceOf(ONE_OBJECT, a, d) == Success((p, ObjectId(0))) && FindFragment(Heads(a.fragments), name) == Some(f)
    ensures WithDefinition(ONE_OBJECT, a, d) == Success(Grow(a, p, LaidPair(f, p, |a.nodes|)))
  {
    PairLaid(Heads(a.fragments), name, f, p, |a.nodes|);
    hide Layout, FindFragment, Schema.Valid, PlaceOf, Grow;
    assert a.(variables := a.variables + []) == a;
    assert NewVariables(ONE_OBJECT, p, d) == Success([]);
  }

  lemma StageResolved(n: nat)
    requires n < 3
    ensures ONE_OBJECT.Valid()
    ensures WithDefinition(ONE_OBJECT, Stage(n), MUTUAL.definitions[n]) == Success(Stage(n + 1))
  {
    ObjectIsValid();
    FragmentsFound(n);
    StageGrown(n);
    var a := Stage(n);
    var p: Parent := if n == 2 then OfOperation(0) else OfFragment(n);
    assert |a.nodes| == 2 * n;
    hide Schema.Valid, Stage, FindFragment, FindOperation, WithDefinition;
    PairResolved(a, MUTUAL.definitions[n], p, if n == 0 then "B" else "A", if n == 0 then 1 else 0);
  }

  lemma StageGrown(n: nat)
    requires n < 3
    ensures var p: Parent := if n == 2 then OfOperation(0) else OfFragment(n);
            HasParent(Stage(n), p) && Grow(Stage(n), p, LaidPair(if n == 0 then 1 else 0, p, 2 * n)) == Stage(n + 1)
  {
    var p: Parent := if n == 2 then OfOperation(0) else OfFragment(n);
    var l := LaidPair(if n == 0 then 1 else 0, p, 2 * n);
    var b := Grow(Stage(n), p, l);
    assert [] + l.ids == l.ids;
    assert b.nodes == Stage(n + 1).nodes && b.parents == Stage(n + 1).parents;
    assert b.fragments == Stage(n + 1).fragments;
    assert b.operations == Stage(n + 1).operations;
  }

  lemma MutualResolves()
    ensures ONE_OBJECT.Valid() && Resolved(ONE_OBJECT, MUTUAL) == Success(Stage(3))
  {
    ObjectIsValid();
    var defs := MUTUAL.definitions;
    assert defs[..1][..0] == [] && defs[..2][..1] == defs[..1] && defs[..3] == defs && defs[..3][..2] == defs[..2];
    assert defs[..1][0] == defs[0] && defs[..2][1] == defs[1];
    RootsOfMutual();
    StageResolved(0);
    StageResolved(1);
    StageResolved(2);
    hide WithDefinition, WithRoots, Stage;
    assert WithDefinitions(ONE_OBJECT, Stage(0), defs[..1]) == Success(Stage(1));
    assert WithDefinitions(ONE_OBJECT, Stage(0), defs[..2]) == Success(Stage(2));
  }

  lemma RootsOfMutual()
    ensures WithRoots(ONE_OBJECT, NOTHING, MUTUAL.definitions) == Success(Stage(0))
  {
    var defs := MUTUAL.definitions;
    assert defs[..1][..0] == [] && defs[..2][..1] == defs[..1] && defs[..3] == defs && defs[..3][..2] == defs[..2];
    assert defs[..1][0] == defs[0] && defs[..2][1] == defs[1];
    var f, g, o := Stage(0).fragments[0], Stage(0).fragments[1], Stage(0).operations[0];
    assert [] + [f] == [f] && [f] + [g] == [f, g] == Stage(0).fragments && [] + [o] == [o] == Stage(0).operations;
    assert Stage(0).nodes == [] && Stage(0).parents == [];
    var a := NOTHING.(fragments := [f]);
    assert WithRoot(ONE_OBJECT, NOTHING, defs[0]) == Success(a);
    assert WithRoots(ONE_OBJECT, NOTHING, []) == Success(NOTHING);
    assert WithRoots(ONE_OBJECT, NOTHING, defs[..1]) == Success(a);
    var b := NOTHING.(fragments := Stage(0).fragments);
    assert WithRoot(ONE_OBJECT, a, defs[1]) == Success(b);
    assert WithRoots(ONE_OBJECT, NOTHING, defs[..2]) == Success(b);
    assert WithRoot(ONE_OBJECT, b, defs[2]) == Success(Stage(0));
  }

  // ----- It passes all checks, and both fragments are generated -----

  lemma MutualPasses()
    ensures ONE_OBJECT.Valid() && Passes(ONE_OBJECT, Stage(3))
  {
    MutualResolves();
    hide Resolved, Schema.Valid;
    var a := Stage(3);
    Known(ONE_OBJECT, MUTUAL, a);
    forall k | 0 <= k < |a.nodes|
      ensures TypeConditionHolds(ONE_OBJECT, a, k) && FieldAnswer(ONE_OBJECT, a, k, 0) == Some(true)
    {
    }
    VerdictAt(Answers(ONE_OBJECT, a, 0), |Answers(ONE_OBJECT, a, 0)|);
  }

  const MUTUAL_QUERY: Context := Context(ONE_OBJECT, Stage(3), (s: string) => s, (s: string) => s)

  lemma PairFilled(name: string)
    ensures AllFilled(Items(name))
  {
    var items := Items(name);
    assert Filled(items[0]) && Filled(items[1]);
    assert items[1..] == [items[1]] && items[1..][1..] == [];
    assert AllFilled(items[1..]);
  }

  lemma MutualReady()
    ensures Ready(MUTUAL_QUERY) && InRange(ONE_OBJECT, Stage(3).variables)
  {
    ObjectIsValid();
    PairFilled("A");
    PairFilled("B");
    MutualResolves();
    assert DefinitionsFilled(MUTUAL.definitions);
    hide Resolved, Ready, DefinitionsFilled, Schema.Valid, OutputTyped, InRange;
    ResolvedIsReady(MUTUAL_QUERY, MUTUAL);
  }

  /** A selection set of a field and a spread accounts for the fragment. */
  lemma SpreadIsCovered(k: nat, f: nat, u: Used)
    requires ONE_OBJECT.Valid() && Walkable(ONE_OBJECT, Stage(3)) && k + 1 < |Stage(3).nodes|
    requires Stage(3).nodes[k + 1] == FragmentSpread(f) && InTable(Stage(3), [k, k + 1])
    requires CoveredAll(ONE_OBJECT, Stage(3), [k, k + 1], u)
    ensures f in u.fragments
  {
    hide Schema.Valid, Walkable, Stage;
    InitInTable(Stage(3), [k, k + 1]);
    assert Covered(ONE_OBJECT, Stage(3), k + 1, u);
  }

  lemma BothUsed()
    ensures ONE_OBJECT.Valid() && Walkable(ONE_OBJECT, Stage(3)) && InRange(ONE_OBJECT, Stage(3).variables)
    ensures {0, 1} <= UsedBy(ONE_OBJECT, Stage(3), 0).fragments
  {
    MutualReady();
    var a := Stage(3);
    UsedIsLeastComplete(ONE_OBJECT, a, 0);
    var u := UsedBy(ONE_OBJECT, a, 0);
    assert Complete(ONE_OBJECT, a, 0, u);
    SpreadIsCovered(4, 0, u);
    SpreadIsCovered(0, 1, u);
  }

  // ----- Each fragment holds the other -----

  lemma NotInItsOwnTree(f: nat)
    requires f < 2
    ensures Ready(MUTUAL_QUERY) && !SpreadRecursive(MUTUAL_QUERY, f)
  {
    MutualReady();
    var a := Stage(3);
    assert a.fragments[f].selectionSet == [2 * f, 2 * f + 1];
    assert !ContainsFragment(a, 2 * f, f) && !ContainsFragment(a, 2 * f + 1, f);
  }

  lemma HoldsTheOther(f: nat)
    requires f < 2
    ensures Ready(MUTUAL_QUERY) && OriginOk(MUTUAL_QUERY, FromRoot(OfFragment(f)))
    ensures Holds(MUTUAL_QUERY, FromRoot(OfFragment(f)), FromRoot(OfFragment(1 - f)))
  {
    MutualReady();
    NotInItsOwnTree(1 - f);
    var cx, root, q := MUTUAL_QUERY, OfFragment(f), FromRoot(OfFragment(1 - f));
    RootKnown(cx, root);
    hide Walkable, SpreadRecursive, FragmentIsRecursive;
    var ids := [2 * f, 2 * f + 1];
    assert RootSelections(cx, root) == (ids, ObjectId(0));
    assert ids[1] in ids && SelectionHolds(cx, ids[1], ObjectId(0), q);
    assert AnyHolds(cx, ids, ObjectId(0), q);
  }

  /** A struct that holds one that holds it. */
  lemma HeldBack(cx: Context, x: Origin, y: Origin)
    requires Ready(cx) && OriginOk(cx, x) && OriginOk(cx, y) && Holds(cx, x, y) && Holds(cx, y, x)
    ensures HoldsItself(cx, x)
  {
    hide Ready, Holds, OriginOk;
    var p := [x, y, x];
    assert HoldWalk(cx, p);
  }

  /**
   A document that passes all checks, in which an operation uses two fragments whose structs
   hold each other: neither spread is boxed, as neither is in its own fragment's tree.
   */
  lemma {:induction false} MutualFragmentsHoldThemselves() returns (cx: Context)
    ensures cx.schema.Valid() && Resolved(cx.schema, MUTUAL) == Success(cx.a) && Passes(cx.schema, cx.a)
    ensures Ready(cx) && InRange(cx.schema, cx.a.variables) && |cx.a.operations| == 1
    ensures {0, 1} <= UsedBy(cx.schema, cx.a, 0).fragments
    ensures HoldsItself(cx, FromRoot(OfFragment(0))) && HoldsItself(cx, FromRoot(OfFragment(1)))
  {
    hide Ready, Holds, OriginOk, Resolved, Passes, Schema.Valid, Stage, HoldsItself, UsedBy, Walkable;
    cx := MUTUAL_QUERY;
    MutualResolves();
    MutualPasses();
    MutualReady();
    BothUsed();
    HoldsTheOther(0);
    HoldsTheOther(1);
    HeldBack(cx, FromRoot(OfFragment(0)), FromRoot(OfFragment(1)));
    HeldBack(cx, FromRoot(OfFragment(1)), FromRoot(OfFragment(0)));
    assert |Stage(3).operations| == 1 by { OneOperation(); }
  }

  lemma OneOperation()
    ensures |Stage(3).operations| == 1
  {
  }
}
