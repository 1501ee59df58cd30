/** Queries, from a document to what is generated, in which a selected field or a used type is lost. */
module LossyQueries {
  import opened Wrappers
  import Ast
  import opened Schemas
  import opened Arenas
  import opened Resolver
  import opened ArenaShape
  import opened ReadBack
  import opened Resolution
  import opened Validation
  import opened ResolvedVariables
  import opened UsedTypes
  import opened Expansion
  import opened ExpandedSelections
  import opened VariantContents
  import opened GeneratedNames
  import opened ReadyQueries
  import opened ResolvedDocuments

  /** A union U of one object type T with the fields a and b, and a field u of that type at the root. */
  const ONE_UNION: Schema := Schema(
    [StoredObject("Query", [2], []), StoredObject("T", [0, 1], [])],
    [StoredField("a", FieldType(ScalarId(0), []), OfObject(1), None),
     StoredField("b", FieldType(ScalarId(0), []), OfObject(1), None),
     StoredField("u", FieldType(UnionId(0), []), OfObject(0), None)],
    [], [StoredUnion("U", [ObjectId(1)])], ["String"], [], [],
    map["Query" := ObjectId(0), "T" := ObjectId(1), "U" := UnionId(0), "String" := ScalarId(0)],
    Some(0), None, None)

  lemma UnionIsValid()
    ensures ONE_UNION.Valid() && OutputTyped(ONE_UNION)
  {
  }

  // ----- The documents -----

  function Plain(name: string): Ast.Selection {
    Ast.Field(None, name, [], [], [])
  }

  function OnT(name: string): Ast.Selection {
    Ast.InlineFragment(Some("T"), [], [Plain(name)])
  }

  /** A query for u with three selections. */
  function QueryOf(x: Ast.Selection, y: Ast.Selection, z: Ast.Selection): Ast.Definition {
    Ast.Operation(Ast.Query, Some("Q"), [], [], [FieldU([x, y, z])])
  }

  /** `query Q { u { __typename ... on T { a } ... on T { b } } }` */
  const TWO_INLINES: Ast.Document := Ast.Document([QueryOf(Plain(TYPENAME_FIELD), OnT("a"), OnT("b"))])

  /** `fragment F on T { a } query Q { u { __typename ...F ... on T { b } } }` */
  const SPREAD_FIRST: Ast.Document := Ast.Document([
    Ast.Fragment("F", "T", [], [Plain("a")]),
    QueryOf(Plain(TYPENAME_FIELD), Ast.FragmentSpread("F", []), OnT("b"))])

  // ----- What they resolve to -----

  function Query(id: nat): ResolvedOperation {
    ResolvedOperation("Q", Ast.Query, 0, [id])
  }

  const TWO_INLINES_ARENA: Arena := Arena(
    [], [Query(0)],
    [Field(None, 2, [1, 2, 4]),
     Typename, InlineFragment(ObjectId(1), [3]), Field(None, 0, []), InlineFragment(ObjectId(1), [5]),
     Field(None, 1, [])],
    [OfOperation(0), OfField(0), OfField(0), OfInlineFragment(2), OfField(0), OfInlineFragment(4)],
    [])

  const SPREAD_FIRST_ARENA: Arena := Arena(
    [ResolvedFragment("F", ObjectId(1), [0])], [Query(1)],
    [Field(None, 0, []),
     Field(None, 2, [2, 3, 4]), Typename, FragmentSpread(0), InlineFragment(ObjectId(1), [5]), Field(None, 1, [])],
    [OfFragment(0), OfOperation(0), OfField(1), OfField(1), OfField(1), OfInlineFragment(4)],
    [])

  lemma FieldsFound()
    ensures ONE_UNION.Valid()
    ensures FindField(ONE_UNION, [0, 1], "a") == Some(0) && FindField(ONE_UNION, [0, 1], "b") == Some(1)
    ensures FindField(ONE_UNION, [2], "u") == Some(2)
  {
    assert "a"[0] != "b"[0];
    assert [0, 1][1..] == [1];
  }

  function LeafId(name: string): nat {
    if name == "a" then 0 else 1
  }

  /** One selection laid, as a selection set of one. */
  lemma LaidOne(schema: Schema, heads: seq<ResolvedFragment>, on: TypeId, item: Ast.Selection, p: Parent, base: nat,
                l: Laid)
    requires schema.Valid() && schema.Has(on) && schema.IsComposite(on)
    requires LayoutOne(schema, heads, on, item, p, base) == Success(l)
    ensures Layout(schema, heads, on, [item], p, base) == Success(l)
  {
    hide Layout, LayoutOne, Schema.Valid;
    LayoutNothing(schema, heads, on, p, base);
    LayoutMore(schema, heads, on, [item], p, base);
    assert [item][..0] == [];
    assert [] + l.nodes == l.nodes && [] + l.parents == l.parents && [] + l.ids == l.ids;
  }

  lemma LaidThree(schema: Schema, heads: seq<ResolvedFragment>, on: TypeId, items: seq<Ast.Selection>,
                  p: Parent, base: nat, l: Laid, m: Laid, n: Laid)
    requires schema.Valid() && schema.Has(on) && schema.IsComposite(on) && |items| == 3
    requires LayoutOne(schema, heads, on, items[0], p, base) == Success(l)
    requires LayoutOne(schema, heads, on, items[1], p, base + |l.nodes|) == Success(m)
    requires LayoutOne(schema, heads, on, items[2], p, base + |l.nodes| + |m.nodes|) == Success(n)
    ensures Layout(schema, heads, on, items, p, base)
              == Success(Laid(l.nodes + m.nodes + n.nodes, l.parents + m.parents + n.parents, l.ids + m.ids + n.ids))
  {
    hide Layout, LayoutOne, Schema.Valid;
    LaidOne(schema, heads, on, items[0], p, base, l);
    assert items[..1] == [items[0]] && items[..2][..1] == items[..1];
    LayoutMore(schema, heads, on, items[..2], p, base);
    LayoutMore(schema, heads, on, items, p, base);
  }

  lemma NothingAfter(l: Laid)
    ensures Laid(l.nodes + [], l.parents + [], l.ids) == l
  {
    assert l.nodes + [] == l.nodes && l.parents + [] == l.parents;
  }

  lemma LeafLaid(heads: seq<ResolvedFragment>, name: string, p: Parent, base: nat)
    requires name == "a" || name == "b"
    ensures ONE_UNION.Valid()
    ensures Layout(ONE_UNION, heads, ObjectId(1), [Plain(name)], p, base)
              == Success(Laid([Field(None, LeafId(name), [])], [p], [base]))
  {
    FieldsFound();
    assert name != TYPENAME_FIELD by {
      assert TYPENAME_FIELD[0] == '_';
    }
    var l := Laid([Field(None, LeafId(name), [])], [p], [base]);
    LayoutNothing(ONE_UNION, heads, ScalarId(0), OfField(base), base + 1);
    NothingAfter(l);
    assert LayoutOne(ONE_UNION, heads, ObjectId(1), Plain(name), p, base) == Success(l);
    LaidOne(ONE_UNION, heads, ObjectId(1), Plain(name), p, base, l);
  }

  function LaidInline(name: string, p: Parent, base: nat): Laid {
    Laid([InlineFragment(ObjectId(1), [base + 1]), Field(None, LeafId(name), [])], [p, OfInlineFragment(base)], [base])
  }

  function LaidPlain(node: Node, p: Parent, base: nat): Laid {
    Laid([node], [p], [base])
  }

  lemma InlineLaid(heads: seq<ResolvedFragment>, name: string, p: Parent, base: nat)
    requires name == "a" || name == "b"
    ensures ONE_UNION.Valid()
    ensures LayoutOne(ONE_UNION, heads, UnionId(0), OnT(name), p, base)
              == Success(LaidInline(name, p, base))
  {
    LeafLaid(heads, name, OfInlineFragment(base), base + 1);
    hide Layout;
    var inline, leaf := InlineFragment(ObjectId(1), [base + 1]), Field(None, LeafId(name), []);
    assert [p] + [OfInlineFragment(base)] == [p, OfInlineFragment(base)] && [inline] + [leaf] == [inline, leaf];
    assert ONE_UNION.FindType("T") == Some(ObjectId(1));
  }

  lemma OthersLaid(heads: seq<ResolvedFragment>, p: Parent, base: nat)
    ensures ONE_UNION.Valid()
    ensures LayoutOne(ONE_UNION, heads, UnionId(0), Plain(TYPENAME_FIELD), p, base) ==
            Success(LaidPlain(Typename, p, base))
    ensures FindFragment(heads, "F") == Some(0) ==>
              LayoutOne(ONE_UNION, heads, UnionId(0), Ast.FragmentSpread("F", []), p, base)
                == Success(LaidPlain(FragmentSpread(0), p, base))
  {
    UnionIsValid();
  }

  function FieldU(items: seq<Ast.Selection>): Ast.Selection {
    Ast.Field(None, "u", [], [], items)
  }

  /** The field at the root, with what its selections are laid as. */
  lemma QueryLaid(heads: seq<ResolvedFragment>, items: seq<Ast.Selection>, base: nat, below: Laid)
    requires ONE_UNION.Valid()
    requires Layout(ONE_UNION, heads, UnionId(0), items, OfField(base), base + 1) == Success(below)
    ensures Layout(ONE_UNION, heads, ObjectId(0), [FieldU(items)], OfOperation(0), base)
              == Success(Laid([Field(None, 2, below.ids)] + below.nodes, [OfOperation(0)] + below.parents, [base]))
  {
    FieldsFound();
    assert FieldU(items).name != TYPENAME_FIELD by {
      assert TYPENAME_FIELD[0] == '_';
    }
    assert ONE_UNION.FieldsOf(ObjectId(0)) == [2];
    var l := Laid([Field(None, 2, below.ids)] + below.nodes, [OfOperation(0)] + below.parents, [base]);
    assert LayoutOne(ONE_UNION, heads, ObjectId(0), FieldU(items), OfOperation(0), base) == Success(l);
    LaidOne(ONE_UNION, heads, ObjectId(0), FieldU(items), OfOperation(0), base, l);
  }

  function Three(l: Laid, m: Laid, n: Laid): Laid {
    Laid(l.nodes + m.nodes + n.nodes, l.parents + m.parents + n.parents, l.ids + m.ids + n.ids)
  }

  function LaidQuery(below: Laid, base: nat): Laid {
    Laid([Field(None, 2, below.ids)] + below.nodes, [OfOperation(0)] + below.parents, [base])
  }

  lemma TwoInlinesLaid()
    ensures ONE_UNION.Valid()
    ensures var p := OfField(0);
            Layout(ONE_UNION, [], ObjectId(0), [FieldU([Plain(TYPENAME_FIELD), OnT("a"), OnT("b")])], OfOperation(0), 0)
              == Success(LaidQuery(Three(LaidPlain(Typename, p, 1), LaidInline("a", p, 2), LaidInline("b", p, 4)), 0))
  {
    hide Layout, LayoutOne, Schema.Valid;
    var p := OfField(0);
    OthersLaid([], p, 1);
    InlineLaid([], "a", p, 2);
    InlineLaid([], "b", p, 4);
    var items := [Plain(TYPENAME_FIELD), OnT("a"), OnT("b")];
    var l, m, n := LaidPlain(Typename, p, 1), LaidInline("a", p, 2), LaidInline("b", p, 4);
    LaidThree(ONE_UNION, [], UnionId(0), items, p, 1, l, m, n);
    QueryLaid([], items, 0, Three(l, m, n));
  }

  lemma SpreadFirstLaid(heads: seq<ResolvedFragment>)
    requires FindFragment(heads, "F") == Some(0)
    ensures ONE_UNION.Valid()
    ensures var p, items := OfField(1), [Plain(TYPENAME_FIELD), Ast.FragmentSpread("F", []), OnT("b")];
            Layout(ONE_UNION, heads, ObjectId(0), [FieldU(items)], OfOperation(0), 1)
              == Success(LaidQuery(Three(LaidPlain(Typename, p, 2), LaidPlain(FragmentSpread(0), p, 3),
                                         LaidInline("b", p, 4)), 1))
  {
    hide Layout, LayoutOne, Schema.Valid, FindFragment;
    var p := OfField(1);
    OthersLaid(heads, p, 2);
    OthersLaid(heads, p, 3);
    InlineLaid(heads, "b", p, 4);
    var items := [Plain(TYPENAME_FIELD), Ast.FragmentSpread("F", []), OnT("b")];
    var l, m, n := LaidPlain(Typename, p, 2), LaidPlain(FragmentSpread(0), p, 3), LaidInline("b", p, 4);
    LaidThree(ONE_UNION, heads, UnionId(0), items, p, 2, l, m, n);
    QueryLaid(heads, items, 1, Three(l, m, n));
  }

  // ----- Whole documents -----

  /** Resolving the query in an arena that has its entry. */
  lemma QueryResolved(a: Arena, items: seq<Ast.Selection>, l: Laid)
    requires a.operations == [ResolvedOperation("Q", Ast.Query, 0, [])] && ONE_UNION.Valid()
    requires Layout(ONE_UNION, Heads(a.fragments), ObjectId(0), [FieldU(items)], OfOperation(0), |a.nodes|) ==
             Success(l)
    ensures WithDefinition(ONE_UNION, a, Ast.Operation(Ast.Query, Some("Q"), [], [], [FieldU(items)]))
              == Success(Grow(a, OfOperation(0), l))
  {
    assert a.operations[..0] == [] && a.operations[0].name == "Q";
    assert FindOperation(a.operations, "Q") == Some(0);
    assert a.(variables := a.variables + []) == a;
    hide Layout, FindOperation;
  }

  lemma OfOne(schema: Schema, a: Arena, d: Ast.Definition)
    requires schema.Valid()
    ensures WithRoots(schema, a, [d]) == WithRoot(schema, a, d)
    ensures WithDefinitions(schema, a, [d]) == WithDefinition(schema, a, d)
  {
    hide WithRoot, WithDefinition;
    assert [d][..0] == [];
    assert WithRoots(schema, a, []) == Success(a) && WithDefinitions(schema, a, []) == Success(a);
  }

  lemma OfBoth(schema: Schema, a: Arena, d: Ast.Definition, e: Ast.Definition)
    requires schema.Valid()
    ensures WithRoot(schema, a, d).Success? ==>
              WithRoots(schema, a, [d, e]) == WithRoot(schema, WithRoot(schema, a, d).value, e)
    ensures WithDefinition(schema, a, d).Success? ==>
              WithDefinitions(schema, a, [d, e]) == WithDefinition(schema, WithDefinition(schema, a, d).value, e)
  {
    hide WithRoot, WithDefinition;
    OfOne(schema, a, d);
    assert [d, e][..1] == [d];
  }

  lemma QueryRoot(a: Arena, items: seq<Ast.Selection>)
    requires a.operations == []
    ensures WithRoot(ONE_UNION, a, Ast.Operation(Ast.Query, Some("Q"), [], [], [FieldU(items)]))
              == Success(a.(operations := [ResolvedOperation("Q", Ast.Query, 0, [])]))
  {
    var o := ResolvedOperation("Q", Ast.Query, 0, []);
    assert [] + [o] == [o];
  }

  function LaidTwoInlines(): Laid {
    var p := OfField(0);
    LaidQuery(Three(LaidPlain(Typename, p, 1), LaidInline("a", p, 2), LaidInline("b", p, 4)), 0)
  }

  function LaidSpreadFirst(): Laid {
    var p := OfField(1);
    LaidQuery(Three(LaidPlain(Typename, p, 2), LaidPlain(FragmentSpread(0), p, 3), LaidInline("b", p, 4)), 1)
  }

  const QUERY_ROOT: ResolvedOperation := ResolvedOperation("Q", Ast.Query, 0, [])

  lemma TwoInlinesGrown()
    ensures Grow(NOTHING.(operations := [QUERY_ROOT]), OfOperation(0), LaidTwoInlines()) == TWO_INLINES_ARENA
  {
    var l := LaidTwoInlines();
    var b := Grow(NOTHING.(operations := [QUERY_ROOT]), OfOperation(0), l);
    assert [] + l.ids == [0];
    assert b.operations == TWO_INLINES_ARENA.operations;
    assert l.nodes[0].selectionSet == [1, 2, 4];
    assert b.nodes == TWO_INLINES_ARENA.nodes && b.parents == TWO_INLINES_ARENA.parents;
  }

  lemma TwoInlinesResolves()
    ensures ONE_UNION.Valid() && Resolved(ONE_UNION, TWO_INLINES) == Success(TWO_INLINES_ARENA)
  {
    hide Layout, Schema.Valid, WithRoot, WithDefinition, WithRoots, WithDefinitions, Grow, LaidQuery;
    TwoInlinesLaid();
    var items := [Plain(TYPENAME_FIELD), OnT("a"), OnT("b")];
    var d := QueryOf(items[0], items[1], items[2]);
    var a := NOTHING.(operations := [QUERY_ROOT]);
    assert Heads(a.fragments) == [];
    QueryRoot(NOTHING, items);
    QueryResolved(a, items, LaidTwoInlines());
    OfOne(ONE_UNION, NOTHING, d);
    OfOne(ONE_UNION, a, d);
    TwoInlinesGrown();
  }

  lemma FragmentRoot(a: Arena)
    requires a.fragments == []
    ensures WithRoot(ONE_UNION, a, Ast.Fragment("F", "T", [], [Plain("a")]))
              == Success(a.(fragments := [ResolvedFragment("F", ObjectId(1), [])]))
  {
    var f := ResolvedFragment("F", ObjectId(1), []);
    assert [] + [f] == [f];
  }

  lemma FragmentResolved(a: Arena)
    requires a.fragments == [ResolvedFragment("F", ObjectId(1), [])] && a.nodes == [] && ONE_UNION.Valid()
    ensures FindFragment(a.fragments, "F") == Some(0)
    ensures WithDefinition(ONE_UNION, a, Ast.Fragment("F", "T", [], [Plain("a")]))
              == Success(Grow(a, OfFragment(0), LaidPlain(Field(None, 0, []), OfFragment(0), 0)))
  {
    LeafLaid(Heads(a.fragments), "a", OfFragment(0), 0);
    assert a.fragments[..0] == [] && a.fragments[0].name == "F";
    assert a.(variables := a.variables + []) == a;
    hide Layout, FindFragment;
  }

  /** The arena with the fragment resolved and the query entered. */
  function HalfResolved(): Arena {
    Grow(NOTHING.(fragments := [ResolvedFragment("F", ObjectId(1), [])], operations := [QUERY_ROOT]),
         OfFragment(0), LaidPlain(Field(None, 0, []), OfFragment(0), 0))
  }

  lemma HalfIs()
    ensures var a := HalfResolved();
            && a.fragments == [ResolvedFragment("F", ObjectId(1), [0])] && a.operations == [QUERY_ROOT]
            && a.nodes == [Field(None, 0, [])] && a.parents == [OfFragment(0)] && a.variables == []
            && FindFragment(Heads(a.fragments), "F") == Some(0)
  {
    var a := HalfResolved();
    assert [] + [0] == [0];
    assert Heads(a.fragments)[..0] == [] && Heads(a.fragments)[0].name == "F";
  }

  lemma SpreadFirstGrown()
    ensures Grow(HalfResolved(), OfOperation(0), LaidSpreadFirst()) == SPREAD_FIRST_ARENA
  {
    HalfIs();
    hide HalfResolved;
    var l := LaidSpreadFirst();
    var b := Grow(HalfResolved(), OfOperation(0), l);
    assert [] + l.ids == [1];
    assert b.operations == SPREAD_FIRST_ARENA.operations;
    assert l.nodes[0].selectionSet == [2, 3, 4];
    assert b.nodes == SPREAD_FIRST_ARENA.nodes && b.parents == SPREAD_FIRST_ARENA.parents;
  }

  lemma SpreadFirstResolves()
    ensures ONE_UNION.Valid() && Resolved(ONE_UNION, SPREAD_FIRST) == Success(SPREAD_FIRST_ARENA)
  {
    UnionIsValid();
    hide Layout, Schema.Valid, WithRoot, WithDefinition, WithRoots, WithDefinitions, Grow, LaidQuery, FindFragment,
         HalfResolved;
    HalfIs();
    var half := HalfResolved();
    SpreadFirstLaid(Heads(half.fragments));
    var items := [Plain(TYPENAME_FIELD), Ast.FragmentSpread("F", []), OnT("b")];
    var d, e := Ast.Fragment("F", "T", [], [Plain("a")]), QueryOf(items[0], items[1], items[2]);
    var a := NOTHING.(fragments := [ResolvedFragment("F", ObjectId(1), [])]);
    FragmentRoot(NOTHING);
    QueryRoot(a, items);
    OfBoth(ONE_UNION, NOTHING, d, e);
    var roots := a.(operations := [QUERY_ROOT]);
    FragmentResolved(roots);
    QueryResolved(half, items, LaidSpreadFirst());
    OfBoth(ONE_UNION, roots, d, e);
    HalfIsGrown(roots);
    SpreadFirstGrown();
  }

  lemma HalfIsGrown(roots: Arena)
    requires roots == NOTHING.(fragments := [ResolvedFragment("F", ObjectId(1), [])], operations := [QUERY_ROOT])
    ensures Grow(roots, OfFragment(0), LaidPlain(Field(None, 0, []), OfFragment(0), 0)) == HalfResolved()
  {
  }

  // ----- They pass all checks -----

  /** What `resolve` demands of a resolved query. */
  ghost predicate Passes(schema: Schema, a: Arena)
    requires schema.Valid()
  {
    && ConditionsHold(schema, a)
    && Readable(a) && FieldsKnown(schema, a) && Verdict(Answers(schema, a, 0)) == Some(true)
  }

  /** The query has `__typename` first in the one selection set that needs it. */
  lemma AnswersAreYes(a: Arena, u: nat)
    requires Readable(a) && FieldsKnown(ONE_UNION, a) && u < |a.nodes| && a.nodes[u].Field?
    requires forall f | 0 <= f < |a.fragments| :: a.fragments[f].on == ObjectId(1)
    requires forall k | 0 <= k < |a.nodes| && k != u && a.nodes[k].Field? :: a.nodes[k].fieldId < 2
    requires a.nodes[u].selectionSet != [] && a.nodes[u].selectionSet[0] < |a.nodes|
    requires a.nodes[a.nodes[u].selectionSet[0]].Typename?
    ensures Verdict(Answers(ONE_UNION, a, 0)) == Some(true)
  {
    forall k | 0 <= k < |a.nodes| ensures FieldAnswer(ONE_UNION, a, k, 0) == Some(true) {
      if k == u {
        assert a.nodes[u].selectionSet[0] in a.nodes[u].selectionSet;
      }
    }
    VerdictAt(Answers(ONE_UNION, a, 0), |Answers(ONE_UNION, a, 0)|);
  }

  lemma Known(schema: Schema, doc: Ast.Document, a: Arena)
    requires schema.Valid() && Resolved(schema, doc) == Success(a)
    ensures AllKnown(schema, a) && Readable(a) && FieldsKnown(schema, a)
  {
    hide Resolved, Shaped, AllKnown, Readable, FieldsKnown;
    ResolvedQueriesAreShaped(schema, doc, false);
    ShapedIsKnown(schema, a, false);
    ShapedIsReadable(schema, a, false);
  }

  lemma TwoInlinesPasses()
    ensures ONE_UNION.Valid() && Passes(ONE_UNION, TWO_INLINES_ARENA)
  {
    TwoInlinesResolves();
    hide Resolved, Schema.Valid;
    var a := TWO_INLINES_ARENA;
    Known(ONE_UNION, TWO_INLINES, a);
    AnswersAreYes(a, 0);
    forall k | 0 <= k < |a.nodes| ensures TypeConditionHolds(ONE_UNION, a, k) {
    }
  }

  lemma SpreadFirstPasses()
    ensures ONE_UNION.Valid() && Passes(ONE_UNION, SPREAD_FIRST_ARENA)
  {
    SpreadFirstResolves();
    hide Resolved, Schema.Valid;
    var a := SPREAD_FIRST_ARENA;
    Known(ONE_UNION, SPREAD_FIRST, a);
    AnswersAreYes(a, 1);
    forall k | 0 <= k < |a.nodes| ensures TypeConditionHolds(ONE_UNION, a, k) {
    }
  }

  // ----- What is generated for them -----

  const TWO_INLINES_QUERY: Context := Context(ONE_UNION, TWO_INLINES_ARENA, (s: string) => s, (s: string) => s)

  const SPREAD_FIRST_QUERY: Context := Context(ONE_UNION, SPREAD_FIRST_ARENA, (s: string) => s, (s: string) => s)

  lemma FilledDocuments()
    ensures DefinitionsFilled(TWO_INLINES.definitions) && DefinitionsFilled(SPREAD_FIRST.definitions)
  {
    assert AllFilled([Plain("a")]) && Filled(OnT("a")) && Filled(OnT("b"));
    assert Filled(Plain(TYPENAME_FIELD)) && Filled(Ast.FragmentSpread("F", []));
    FilledQuery(OnT("a"));
    FilledQuery(Ast.FragmentSpread("F", []));
  }

  lemma FilledQuery(second: Ast.Selection)
    requires Filled(second)
    ensures AllFilled(QueryOf(Plain(TYPENAME_FIELD), second, OnT("b")).selectionSet)
  {
    var items := [Plain(TYPENAME_FIELD), second, OnT("b")];
    assert AllFilled([Plain("b")]) && Filled(OnT("b"));
    assert items[1..] == [second, OnT("b")] && items[1..][1..] == [OnT("b")] && items[1..][1..][1..] == [];
    assert AllFilled(items[1..][1..]) && AllFilled(items[1..]) && AllFilled(items);
    assert Filled(FieldU(items)) && [FieldU(items)][1..] == [];
  }

  lemma BothReady()
    ensures Ready(TWO_INLINES_QUERY) && InRange(ONE_UNION, TWO_INLINES_ARENA.variables)
    ensures Ready(SPREAD_FIRST_QUERY) && InRange(ONE_UNION, SPREAD_FIRST_ARENA.variables)
  {
    UnionIsValid();
    FilledDocuments();
    TwoInlinesResolves();
    SpreadFirstResolves();
    hide Resolved, Ready, DefinitionsFilled, Schema.Valid, OutputTyped, InRange;
    ResolvedIsReady(TWO_INLINES_QUERY, TWO_INLINES);
    ResolvedIsReady(SPREAD_FIRST_QUERY, SPREAD_FIRST);
  }

  /** The struct for a variant of a field at the root is among those of the expansion. */
  lemma VariantOfFieldIsMade(cx: Context, root: Parent, id: nat, t: TypeId, v: nat)
    requires Ready(cx) && IsRoot(root) && HasParent(cx.a, root) && id < |cx.a.nodes| && IsCompositeField(cx, id)
    requires id in RootSelections(cx, root).0 && !Lone(cx, RootSelections(cx, root).0)
    requires t == cx.schema.fields[cx.a.nodes[id].fieldId].fieldType.id
    requires InTable(cx.a, cx.a.nodes[id].selectionSet) && !Lone(cx, cx.a.nodes[id].selectionSet)
    requires cx.schema.Has(t) && v < |Variants(cx, t)|
    requires Matching(cx, cx.a.nodes[id].selectionSet, t, Variants(cx, t)[v]) != []
    ensures OriginOk(cx, FromRoot(root))
    ensures var o := FromVariant(Matching(cx, cx.a.nodes[id].selectionSet, t, Variants(cx, t)[v]), Variants(cx, t)[v]);
            OriginOk(cx, o) && o in Below(cx, FromRoot(root))
  {
    RootKnown(cx, root);
    var (ids, on) := RootSelections(cx, root);
    var sub := cx.a.nodes[id].selectionSet;
    hide Ready, VariantStructs, FieldStructs, Variants, Matching, OneFieldStructs;
    FieldIsMade(cx, ids, id);
    assert FromField(id) in Below(cx, FromRoot(root));
    AllStructsClosed(cx, root);
    VariantIsMade(cx, sub, t, Variants(cx, t), v);
    MatchingFirst(cx, sub, t, Variants(cx, t)[v]);
    FieldBelow(cx, id, t);
    hide Below, Structs, OriginOk;
    var o := FromVariant(Matching(cx, sub, t, Variants(cx, t)[v]), Variants(cx, t)[v]);
    assert o in Below(cx, FromField(id));
    assert FromField(id) in [FromRoot(root)] + Below(cx, FromRoot(root));
    assert o in [FromRoot(root)] + Below(cx, FromRoot(root));
  }

  lemma FieldBelow(cx: Context, id: nat, t: TypeId)
    requires Ready(cx) && id < |cx.a.nodes| && IsCompositeField(cx, id)
    requires t == cx.schema.fields[cx.a.nodes[id].fieldId].fieldType.id
    ensures OriginOk(cx, FromField(id)) && InTable(cx.a, cx.a.nodes[id].selectionSet) && cx.schema.Has(t)
    ensures Below(cx, FromField(id)) == Structs(cx, cx.a.nodes[id].selectionSet, t)
  {
    NodeAt(cx.schema, cx.a, id);
    hide Structs;
  }

  function LeafField(name: string, s: nat): ExpandedField {
    ExpandedField(s, Some(name), "String", [], false, None, false)
  }

  lemma LastTwoMatch(cx: Context, x: nat, y: nat, z: nat, t: TypeId, v: TypeId)
    requires Ready(cx) && InTable(cx.a, [x, y, z]) && x < |cx.a.nodes| && y < |cx.a.nodes| && z < |cx.a.nodes|
    requires !Matches(cx, x, t, v) && Matches(cx, y, t, v) && Matches(cx, z, t, v)
    ensures Matching(cx, [x, y, z], t, v) == [y, z]
  {
    hide Ready, Matches;
    var ids := [x, y, z];
    assert ids[..2] == [x, y] && ids[..2][..1] == [x] && ids[..1][..0] == [];
    InitInTable(cx.a, ids);
    InitInTable(cx.a, [x, y]);
    assert Matching(cx, [], t, v) == [] && Matching(cx, [x], t, v) == [] && Matching(cx, [x, y], t, v) == [y];
  }

  /** A single leaf field on an object type. */
  lemma OneFieldParts(cx: Context, id: nat, v: TypeId, s: nat)
    requires Ready(cx) && InTable(cx.a, [id]) && id < |cx.a.nodes| && cx.a.nodes[id].Field?
    requires cx.schema.Has(v) && v.ObjectId?
    ensures PartsFor(cx, [id], v, s) == Parts(FieldFor(cx, id, v, s), [], [])
  {
    hide Ready, FieldFor;
    assert [id][..0] == [] && AllFields(cx, [], v, s) == [];
  }

  /** Two selections on T, the second an inline fragment with b, in the selection set of the field u. */
  lemma UExpands(cx: Context, u: nat, y: nat, z: nat)
    requires Ready(cx) && cx.schema == ONE_UNION && HasParent(cx.a, OfOperation(0)) && cx.a.operations[0] == Query(u)
    requires u + 1 < y < z < |cx.a.nodes| && cx.a.nodes[u] == Field(None, 2, [u + 1, y, z])
    requires !Matches(cx, u + 1, UnionId(0), ObjectId(1))
    requires Matches(cx, y, UnionId(0), ObjectId(1)) && Matches(cx, z, UnionId(0), ObjectId(1))
    ensures OriginOk(cx, FromVariant([y, z], ObjectId(1))) && OriginOk(cx, FromRoot(OfOperation(0)))
    ensures FromVariant([y, z], ObjectId(1)) in Below(cx, FromRoot(OfOperation(0)))
  {
    hide SelectsNoInputs, RootsInRange, Matches, Matching, Below;
    NodeAt(cx.schema, cx.a, u);
    hide Walkable;
    LastTwoMatch(cx, u + 1, y, z, UnionId(0), ObjectId(1));
    assert Variants(cx, UnionId(0)) == [ObjectId(1)];
    assert IsCompositeField(cx, u) && u in RootSelections(cx, OfOperation(0)).0;
    VariantOfFieldIsMade(cx, OfOperation(0), u, UnionId(0), 0);
  }

  lemma TwoInlinesExpand(s: nat)
    ensures Ready(TWO_INLINES_QUERY) && InTable(TWO_INLINES_ARENA, [3]) && InTable(TWO_INLINES_ARENA, [5])
    ensures !Matches(TWO_INLINES_QUERY, 1, UnionId(0), ObjectId(1))
    ensures Matches(TWO_INLINES_QUERY, 2, UnionId(0), ObjectId(1))
            && Matches(TWO_INLINES_QUERY, 4, UnionId(0), ObjectId(1))
    ensures PartsFor(TWO_INLINES_QUERY, [3], ObjectId(1), s) == Parts([LeafField("a", s)], [], [])
    ensures PartsFor(TWO_INLINES_QUERY, [5], ObjectId(1), s) == Parts([LeafField("b", s)], [], [])
  {
    BothReady();
    OneFieldParts(TWO_INLINES_QUERY, 3, ObjectId(1), s);
    OneFieldParts(TWO_INLINES_QUERY, 5, ObjectId(1), s);
    hide Ready;
  }

  /**
   The query with two inline fragments on T passes all checks, and the struct for T in the
   expansion of its operation has the field a twice and not b.
   */
  lemma {:induction false} TwoInlinesLoseAField(s: nat) returns (cx: Context, ms: seq<nat>)
    ensures cx.schema.Valid() && Resolved(cx.schema, TWO_INLINES) == Success(cx.a) && Passes(cx.schema, cx.a)
    ensures Ready(cx) && |cx.a.operations| == 1
    ensures OriginOk(cx, FromVariant(ms, ObjectId(1))) && OriginOk(cx, FromRoot(OfOperation(0)))
    ensures FromVariant(ms, ObjectId(1)) in Below(cx, FromRoot(OfOperation(0)))
    ensures PartsOf(cx, FromVariant(ms, ObjectId(1)), s) == Parts([LeafField("a", s), LeafField("a", s)], [], [])
    ensures OwnPartsOfEach(cx, ms, ObjectId(1), s) == Parts([LeafField("a", s), LeafField("b", s)], [], [])
  {
    hide Ready, PartsFor, PartsOfEach, OwnPartsOfEach, VariantParts, Matching, Matches, Resolved, Passes, Schema.Valid,
         Below;
    cx, ms := TWO_INLINES_QUERY, [2, 4];
    TwoInlinesResolves();
    TwoInlinesPasses();
    TwoInlinesExpand(s);
    UExpands(cx, 0, 2, 4);
    SecondInlineIsLost(cx, 2, 4, ObjectId(1), s);
    VariantGets(cx, ms, ObjectId(1), s);
  }

  lemma SpreadFirstExpands(s: nat)
    ensures Ready(SPREAD_FIRST_QUERY) && InTable(SPREAD_FIRST_ARENA, [5])
    ensures !Matches(SPREAD_FIRST_QUERY, 2, UnionId(0), ObjectId(1))
    ensures Matches(SPREAD_FIRST_QUERY, 3, UnionId(0), ObjectId(1))
            && Matches(SPREAD_FIRST_QUERY, 4, UnionId(0), ObjectId(1))
    ensures PartsFor(SPREAD_FIRST_QUERY, [5], ObjectId(1), s) == Parts([LeafField("b", s)], [], [])
  {
    BothReady();
    OneFieldParts(SPREAD_FIRST_QUERY, 5, ObjectId(1), s);
    hide Ready;
  }

  /**
   The query with a spread before its one inline fragment passes all checks, and the struct
   for T in the expansion of its operation has the spread's field only.
   */
  lemma {:induction false} SpreadFirstLosesAField(s: nat) returns (cx: Context, ms: seq<nat>)
    ensures cx.schema.Valid() && Resolved(cx.schema, SPREAD_FIRST) == Success(cx.a) && Passes(cx.schema, cx.a)
    ensures Ready(cx) && |cx.a.operations| == 1 && 0 < |cx.a.fragments|
    ensures OriginOk(cx, FromVariant(ms, ObjectId(1))) && OriginOk(cx, FromRoot(OfOperation(0)))
    ensures FromVariant(ms, ObjectId(1)) in Below(cx, FromRoot(OfOperation(0)))
    ensures PartsOf(cx, FromVariant(ms, ObjectId(1)), s) == Parts([SpreadField(cx, 0, s)], [], [])
    ensures OwnPartsOfEach(cx, ms, ObjectId(1), s) == Parts([SpreadField(cx, 0, s), LeafField("b", s)], [], [])
  {
    hide Ready, PartsFor, PartsOfEach, OwnPartsOfEach, VariantParts, Matching, Matches, Resolved, Passes, Schema.Valid,
         Below, SpreadField;
    cx, ms := SPREAD_FIRST_QUERY, [3, 4];
    SpreadFirstResolves();
    SpreadFirstPasses();
    SpreadFirstExpands(s);
    UExpands(cx, 1, 3, 4);
    InlineAfterSpreadIsLost(cx, 3, 4, ObjectId(1), s);
    OfTwo(cx, 3, 4, 3, ObjectId(1), s);
    VariantGets(cx, ms, ObjectId(1), s);
  }

  // ----- A field of an input type -----

  /** The field f at the root has the input type In, which GraphQL forbids, with a field of type Int. */
  const INPUT_FIELD: Schema := Schema(
    [StoredObject("Query", [0], [])], [StoredField("f", FieldType(InputId(0), []), OfObject(0), None)],
    [], [], ["Int"], [], [StoredInput("In", [InputField("x", FieldType(ScalarId(0), []))])],
    map["Query" := ObjectId(0), "In" := InputId(0), "Int" := ScalarId(0)], Some(0), None, None)

  const FIELD_F: Ast.Selection := Ast.Field(None, "f", [], [], [])

  /** `query Q { f }` */
  const INPUT_SELECTED: Ast.Document := Ast.Document([Ast.Operation(Ast.Query, Some("Q"), [], [], [FIELD_F])])

  const INPUT_SELECTED_ARENA: Arena := Arena([], [Query(0)], [Field(None, 0, [])], [OfOperation(0)], [])

  lemma InputSelectedResolves()
    ensures INPUT_FIELD.Valid() && Resolved(INPUT_FIELD, INPUT_SELECTED) == Success(INPUT_SELECTED_ARENA)
  {
    var l := LaidPlain(Field(None, 0, []), OfOperation(0), 0);
    var a := NOTHING.(operations := [QUERY_ROOT]);
    var d := INPUT_SELECTED.definitions[0];
    InputFieldLaid();
    OfOne(INPUT_FIELD, NOTHING, d);
    OfOne(INPUT_FIELD, a, d);
    hide Layout, Schema.Valid, WithRoots, WithDefinitions;
    assert Heads(a.fragments) == [] && [] + [QUERY_ROOT] == [QUERY_ROOT] && [] + l.ids == [0];
    assert WithRoot(INPUT_FIELD, NOTHING, d) == Success(a);
    assert a.operations[..0] == [] && a.operations[0].name == "Q";
    assert PlaceOf(INPUT_FIELD, a, d) == Success((OfOperation(0), ObjectId(0)));
    assert a.(variables := a.variables + []) == a;
    assert WithDefinition(INPUT_FIELD, a, d) == Success(Grow(a, OfOperation(0), l));
    var b := Grow(a, OfOperation(0), l);
    assert b.operations == INPUT_SELECTED_ARENA.operations && b.nodes == [] + l.nodes && b.parents == [] + l.parents;
    assert b == INPUT_SELECTED_ARENA;
    assert INPUT_SELECTED.definitions == [d];
  }

  lemma InputFieldLaid()
    ensures INPUT_FIELD.Valid()
    ensures Layout(INPUT_FIELD, [], ObjectId(0), [FIELD_F], OfOperation(0), 0)
              == Success(LaidPlain(Field(None, 0, []), OfOperation(0), 0))
  {
    var l := LaidPlain(Field(None, 0, []), OfOperation(0), 0);
    assert FIELD_F.name != TYPENAME_FIELD by {
      assert TYPENAME_FIELD[0] == '_';
    }
    LayoutNothing(INPUT_FIELD, [], InputId(0), OfField(0), 1);
    NothingAfter(l);
    assert FindField(INPUT_FIELD, [0], "f") == Some(0);
    assert LayoutOne(INPUT_FIELD, [], ObjectId(0), FIELD_F, OfOperation(0), 0) == Success(l);
    LaidOne(INPUT_FIELD, [], ObjectId(0), FIELD_F, OfOperation(0), 0, l);
  }

  /** Of a selected input type, the field types are not collected. */
  lemma {:induction false} SelectedInputIsNotWalked() returns (schema: Schema, a: Arena)
    ensures schema.Valid() && Resolved(schema, INPUT_SELECTED) == Success(a)
    ensures Walkable(schema, a) && InRange(schema, a.variables) && |a.operations| == 1
    ensures !Complete(schema, a, 0, UsedBy(schema, a, 0))
  {
    schema, a := INPUT_FIELD, INPUT_SELECTED_ARENA;
    InputSelectedResolves();
    hide Resolved, Schema.Valid, Shaped;
    ResolvedQueriesAreShaped(schema, INPUT_SELECTED, false);
    ShapedIsWalkable(schema, a, false);
    hide Walkable;
    var nothing := Used({}, {});
    assert [0][..0] == [] && CollectAll(schema, a, [], nothing) == nothing;
    NodeAt(schema, a, 0);
    assert CollectOne(schema, a, 0, nothing) == Used({InputId(0)}, {});
    assert UsedBy(schema, a, 0).types == {InputId(0)};
    assert !FieldsIn(schema.inputs[0].fields, {InputId(0)}) by {
      assert schema.inputs[0].fields[0].fieldType.id == ScalarId(0);
    }
  }
}
