/** `all_used_types` of crates/codegen/src/query.rs: walks with visited sets over selections and types. */
module UsedTypes {
  import opened Schemas
  import opened Arenas
  import opened ArenaShape
  import opened ReadBack
  import opened ResolvedVariables

  datatype Used = Used(types: set<TypeId>, fragments: set<nat>) {
    predicate Within(other: Used) {
      types <= other.types && fragments <= other.fragments
    }
  }

  /** What the walks rely on: ids can be looked up, and children come after their parents. */
  predicate Walkable(schema: Schema, a: Arena)
    requires schema.Valid()
  {
    && (forall k: nat | k < |a.nodes| :: NodeWalkable(schema, a, k))
    && (forall f: nat | f < |a.fragments| :: InTable(a, a.fragments[f].selectionSet))
    && (forall o: nat | o < |a.operations| :: InTable(a, a.operations[o].selectionSet))
  }

  predicate NodeWalkable(schema: Schema, a: Arena, k: nat)
    requires k < |a.nodes|
  {
    && NodeInRange(schema, |a.fragments|, a.nodes[k])
    && InTable(a, a.nodes[k].Subselection())
    && forall c | c in a.nodes[k].Subselection() :: k < c
  }

  lemma ShapedIsWalkable(schema: Schema, a: Arena, typed: bool)
    requires schema.Valid() && Shaped(schema, a, typed)
    ensures Walkable(schema, a)
  {
    forall k: nat | k < |a.nodes| ensures NodeWalkable(schema, a, k) {
      ChildrenBehind(schema, a, typed, k);
    }
    forall f: nat | f < |a.fragments| ensures InTable(a, a.fragments[f].selectionSet) {
      assert LinkedDown(a, OfFragment(f));
    }
    forall o: nat | o < |a.operations| ensures InTable(a, a.operations[o].selectionSet) {
      assert LinkedDown(a, OfOperation(o));
    }
  }

  // ----- Selections -----

  function Unvisited(a: Arena, u: Used): set<nat> {
    set f: nat | 0 <= f < |a.fragments| && f !in u.fragments
  }

  ghost function CollectOne(schema: Schema, a: Arena, id: nat, u: Used): (r: Used)
    requires schema.Valid() && Walkable(schema, a) && id < |a.nodes|
    ensures u.Within(r)
    decreases Unvisited(a, u), |a.nodes| - id, 0, 0
  {
    assert NodeWalkable(schema, a, id);
    match a.nodes[id]
    case Field(_, f, ids) =>
      assert ids != [] ==> ids[0] in ids;
      CollectAll(schema, a, ids, u.(types := u.types + {schema.fields[f].fieldType.id}))
    case InlineFragment(t, ids) =>
      assert ids != [] ==> ids[0] in ids;
      CollectAll(schema, a, ids, u.(types := u.types + {t}))
    case FragmentSpread(f) =>
      if f in u.fragments then u
      else
        assert f in Unvisited(a, u);
        CollectAll(schema, a, a.fragments[f].selectionSet, u.(fragments := u.fragments + {f}))
    case Typename => u
  }

  ghost function CollectAll(schema: Schema, a: Arena, ids: seq<nat>, u: Used): (r: Used)
    requires schema.Valid() && Walkable(schema, a) && InTable(a, ids)
    ensures u.Within(r)
    decreases Unvisited(a, u), |a.nodes| - First(ids, |a.nodes|), 1, |ids|
  {
    if ids == [] then u
    else
      InitInTable(a, ids);
      var init := CollectAll(schema, a, ids[..|ids| - 1], u);
      assert Unvisited(a, init) <= Unvisited(a, u);
      CollectOne(schema, a, ids[|ids| - 1], init)
  }

  /** The selection and those under it are accounted for: types, and spread fragments by name. */
  ghost predicate Covered(schema: Schema, a: Arena, id: nat, u: Used)
    requires schema.Valid() && Walkable(schema, a) && id < |a.nodes|
    decreases |a.nodes| - id, 0, 0
  {
    assert NodeWalkable(schema, a, id);
    match a.nodes[id]
    case Field(_, f, ids) =>
      assert ids != [] ==> ids[0] in ids;
      schema.fields[f].fieldType.id in u.types && CoveredAll(schema, a, ids, u)
    case InlineFragment(t, ids) =>
      assert ids != [] ==> ids[0] in ids;
      t in u.types && CoveredAll(schema, a, ids, u)
    case FragmentSpread(f) => f in u.fragments
    case Typename => true
  }

  ghost predicate CoveredAll(schema: Schema, a: Arena, ids: seq<nat>, u: Used)
    requires schema.Valid() && Walkable(schema, a) && InTable(a, ids)
    decreases |a.nodes| - First(ids, |a.nodes|), 1, |ids|
  {
    if ids == [] then true
    else
      InitInTable(a, ids);
      CoveredAll(schema, a, ids[..|ids| - 1], u) && Covered(schema, a, ids[|ids| - 1], u)
  }

  lemma {:induction false} CoveredStays(schema: Schema, a: Arena, id: nat, u: Used, v: Used)
    requires schema.Valid() && Walkable(schema, a) && id < |a.nodes| && Covered(schema, a, id, u) && u.Within(v)
    ensures Covered(schema, a, id, v)
    decreases |a.nodes| - id, 0, 0
  {
    hide Walkable;
    NodeAt(schema, a, id);
    if HasChildren(a.nodes[id]) {
      CoveredAllStays(schema, a, a.nodes[id].selectionSet, u, v);
    }
  }

  lemma {:induction false} CoveredAllStays(schema: Schema, a: Arena, ids: seq<nat>, u: Used, v: Used)
    requires schema.Valid() && Walkable(schema, a) && InTable(a, ids) && CoveredAll(schema, a, ids, u) && u.Within(v)
    ensures CoveredAll(schema, a, ids, v)
    decreases |a.nodes| - First(ids, |a.nodes|), 1, |ids|
  {
    hide Walkable;
    if ids != [] {
      InitInTable(a, ids);
      CoveredAllStays(schema, a, ids[..|ids| - 1], u, v);
      CoveredStays(schema, a, ids[|ids| - 1], u, v);
    }
  }

  lemma NodeAt(schema: Schema, a: Arena, id: nat)
    requires schema.Valid() && Walkable(schema, a) && id < |a.nodes|
    ensures NodeInRange(schema, |a.fragments|, a.nodes[id])
    ensures var ids := a.nodes[id].Subselection();
            InTable(a, ids) && id < First(ids, |a.nodes|)
    ensures a.nodes[id].FragmentSpread? ==> InTable(a, a.fragments[a.nodes[id].fragmentId].selectionSet)
  {
    assert NodeWalkable(schema, a, id);
    var ids := a.nodes[id].Subselection();
    assert ids != [] ==> ids[0] in ids;
  }

  /** Every fragment that came in from `u` to `v` has its selections accounted for in `v`. */
  ghost predicate NewOnesCovered(schema: Schema, a: Arena, u: Used, v: Used)
    requires schema.Valid() && Walkable(schema, a)
  {
    forall f: nat | f < |a.fragments| && f in v.fragments && f !in u.fragments ::
      CoveredAll(schema, a, a.fragments[f].selectionSet, v)
  }

  lemma NewOnesCompose(schema: Schema, a: Arena, u: Used, v: Used, w: Used)
    requires schema.Valid() && Walkable(schema, a) && u.Within(v) && v.Within(w)
    requires NewOnesCovered(schema, a, u, v) && NewOnesCovered(schema, a, v, w)
    ensures NewOnesCovered(schema, a, u, w)
  {
    hide CoveredAll;
    forall f: nat | f < |a.fragments| && f in w.fragments && f !in u.fragments
      ensures CoveredAll(schema, a, a.fragments[f].selectionSet, w)
    {
      if f in v.fragments {
        CoveredAllStays(schema, a, a.fragments[f].selectionSet, v, w);
      }
    }
  }

  /** The walk leaves nothing out, in spite of stopping at visited fragments. */
  lemma {:induction false} CollectedIsCovered(schema: Schema, a: Arena, id: nat, u: Used)
    requires schema.Valid() && Walkable(schema, a) && id < |a.nodes|
    ensures Covered(schema, a, id, CollectOne(schema, a, id, u))
    ensures NewOnesCovered(schema, a, u, CollectOne(schema, a, id, u))
    decreases Unvisited(a, u), |a.nodes| - id, 0, 0
  {
    hide Walkable;
    NodeAt(schema, a, id);
    match a.nodes[id]
    case Field(_, f, ids) =>
      AllCollectedAreCovered(schema, a, ids, u.(types := u.types + {schema.fields[f].fieldType.id}));
    case InlineFragment(t, ids) => AllCollectedAreCovered(schema, a, ids, u.(types := u.types + {t}));
    case FragmentSpread(f) =>
      if f !in u.fragments {
        assert f in Unvisited(a, u);
        AllCollectedAreCovered(schema, a, a.fragments[f].selectionSet, u.(fragments := u.fragments + {f}));
      }
    case Typename =>
  }

  lemma {:induction false} AllCollectedAreCovered(schema: Schema, a: Arena, ids: seq<nat>, u: Used)
    requires schema.Valid() && Walkable(schema, a) && InTable(a, ids)
    ensures CoveredAll(schema, a, ids, CollectAll(schema, a, ids, u))
    ensures NewOnesCovered(schema, a, u, CollectAll(schema, a, ids, u))
    decreases Unvisited(a, u), |a.nodes| - First(ids, |a.nodes|), 1, |ids|
  {
    hide Walkable, CollectOne, Covered;
    if ids != [] {
      hide NewOnesCovered;
      InitInTable(a, ids);
      var init, last := ids[..|ids| - 1], ids[|ids| - 1];
      var v := CollectAll(schema, a, init, u);
      assert Unvisited(a, v) <= Unvisited(a, u);
      var w := CollectOne(schema, a, last, v);
      AllCollectedAreCovered(schema, a, init, u);
      CollectedIsCovered(schema, a, last, v);
      CoveredAllStays(schema, a, init, v, w);
      NewOnesCompose(schema, a, u, v, w);
    }
  }

  /** All fragments accounted for have their selections accounted for. */
  ghost predicate FragmentsClosed(schema: Schema, a: Arena, u: Used)
    requires schema.Valid() && Walkable(schema, a)
  {
    forall f: nat | f < |a.fragments| && f in u.fragments :: CoveredAll(schema, a, a.fragments[f].selectionSet, u)
  }

  /** The walk takes nothing that is not needed. */
  lemma {:induction false} CollectedIsNeeded(schema: Schema, a: Arena, id: nat, u: Used, bound: Used)
    requires schema.Valid() && Walkable(schema, a) && id < |a.nodes|
    requires u.Within(bound) && Covered(schema, a, id, bound) && FragmentsClosed(schema, a, bound)
    ensures CollectOne(schema, a, id, u).Within(bound)
    decreases Unvisited(a, u), |a.nodes| - id, 0, 0
  {
    hide Walkable;
    NodeAt(schema, a, id);
    match a.nodes[id]
    case Field(_, f, ids) =>
      AllCollectedAreNeeded(schema, a, ids, u.(types := u.types + {schema.fields[f].fieldType.id}), bound);
    case InlineFragment(t, ids) => AllCollectedAreNeeded(schema, a, ids, u.(types := u.types + {t}), bound);
    case FragmentSpread(f) =>
      if f !in u.fragments {
        assert f in Unvisited(a, u);
        AllCollectedAreNeeded(schema, a, a.fragments[f].selectionSet, u.(fragments := u.fragments + {f}), bound);
      }
    case Typename =>
  }

  lemma {:induction false} AllCollectedAreNeeded(schema: Schema, a: Arena, ids: seq<nat>, u: Used, bound: Used)
    requires schema.Valid() && Walkable(schema, a) && InTable(a, ids)
    requires u.Within(bound) && CoveredAll(schema, a, ids, bound) && FragmentsClosed(schema, a, bound)
    ensures CollectAll(schema, a, ids, u).Within(bound)
    decreases Unvisited(a, u), |a.nodes| - First(ids, |a.nodes|), 1, |ids|
  {
    hide Walkable, CollectOne, Covered, FragmentsClosed;
    if ids != [] {
      InitInTable(a, ids);
      var init := ids[..|ids| - 1];
      AllCollectedAreNeeded(schema, a, init, u, bound);
      var v := CollectAll(schema, a, init, u);
      assert Unvisited(a, v) <= Unvisited(a, u);
      CollectedIsNeeded(schema, a, ids[|ids| - 1], v, bound);
    }
  }

  // ----- Input types -----

  function UnvisitedInputs(schema: Schema, types: set<TypeId>): set<nat> {
    set i: nat | 0 <= i < |schema.inputs| && InputId(i) !in types
  }

  /** `used_input_ids_recursive`, over the fields of an input type. */
  function CollectInputs(schema: Schema, fields: seq<InputField>, types: set<TypeId>): (r: set<TypeId>)
    requires forall k | 0 <= k < |fields| :: schema.Has(fields[k].fieldType.id)
    requires schema.IdsInRange()
    ensures types <= r
    decreases UnvisitedInputs(schema, types), |fields|
  {
    if fields == [] then types
    else
      var init := CollectInputs(schema, fields[..|fields| - 1], types);
      var t := fields[|fields| - 1].fieldType.id;
      match t
      case InputId(i) =>
        if t in init then init
        else
          assert schema.Has(t);
          assert UnvisitedInputs(schema, init) <= UnvisitedInputs(schema, types) && i in UnvisitedInputs(schema, init);
          CollectInputs(schema, schema.inputs[i].fields, init + {t})
      case EnumId(_) => init + {t}
      case ScalarId(_) => init + {t}
      case _ => init
  }

  predicate IsInputKind(t: TypeId) {
    t.InputId? || t.EnumId? || t.ScalarId?
  }

  /** The field types are accounted for. */
  predicate FieldsIn(fields: seq<InputField>, types: set<TypeId>) {
    forall k | 0 <= k < |fields| :: IsInputKind(fields[k].fieldType.id) ==> fields[k].fieldType.id in types
  }

  /** Of the input types that came in from `before` to `types`, the field types are accounted for. */
  predicate NewInputsIn(schema: Schema, before: set<TypeId>, types: set<TypeId>) {
    forall i | 0 <= i < |schema.inputs| && InputId(i) in types && InputId(i) !in before ::
      FieldsIn(schema.inputs[i].fields, types)
  }

  lemma {:induction false} InputsCollected(schema: Schema, fields: seq<InputField>, types: set<TypeId>)
    requires schema.IdsInRange() && forall k | 0 <= k < |fields| :: schema.Has(fields[k].fieldType.id)
    ensures var r := CollectInputs(schema, fields, types);
            FieldsIn(fields, r) && NewInputsIn(schema, types, r)
    decreases UnvisitedInputs(schema, types), |fields|
  {
    if fields != [] {
      var init := CollectInputs(schema, fields[..|fields| - 1], types);
      InputsCollected(schema, fields[..|fields| - 1], types);
      var t := fields[|fields| - 1].fieldType.id;
      if t.InputId? && t !in init {
        assert UnvisitedInputs(schema, init) <= UnvisitedInputs(schema, types) && t.id in UnvisitedInputs(schema, init);
        InputsCollected(schema, schema.inputs[t.id].fields, init + {t});
      }
    }
  }

  lemma {:induction false} InputsNeeded(schema: Schema, fields: seq<InputField>, types: set<TypeId>, bound: set<TypeId>)
    requires schema.IdsInRange() && forall k | 0 <= k < |fields| :: schema.Has(fields[k].fieldType.id)
    requires types <= bound && FieldsIn(fields, bound) && NewInputsIn(schema, {}, bound)
    ensures CollectInputs(schema, fields, types) <= bound
    decreases UnvisitedInputs(schema, types), |fields|
  {
    if fields != [] {
      var init := CollectInputs(schema, fields[..|fields| - 1], types);
      InputsNeeded(schema, fields[..|fields| - 1], types, bound);
      var t := fields[|fields| - 1].fieldType.id;
      if t.InputId? && t !in init {
        assert UnvisitedInputs(schema, init) <= UnvisitedInputs(schema, types) && t.id in UnvisitedInputs(schema, init);
        InputsNeeded(schema, schema.inputs[t.id].fields, init + {t}, bound);
      }
    }
  }

  // ----- Variables -----

  /** `ResolvedVariable::collect_used_types`. */
  function CollectVariable(schema: Schema, v: ResolvedVariable, types: set<TypeId>): (r: set<TypeId>)
    requires schema.IdsInRange() && schema.Has(v.fieldType.id)
    ensures types <= r
  {
    match v.fieldType.id
    case InputId(i) => CollectInputs(schema, schema.inputs[i].fields, types + {InputId(i)})
    case EnumId(_) => types + {v.fieldType.id}
    case ScalarId(_) => types + {v.fieldType.id}
    case _ => types
  }

  function CollectVariables(schema: Schema, vs: seq<ResolvedVariable>, types: set<TypeId>): (r: set<TypeId>)
    requires schema.IdsInRange() && InRange(schema, vs)
    ensures types <= r
  {
    if vs == [] then types
    else
      assert vs[|vs| - 1] in vs && forall v | v in vs[..|vs| - 1] :: v in vs;
      CollectVariable(schema, vs[|vs| - 1], CollectVariables(schema, vs[..|vs| - 1], types))
  }

  /** The variable types are accounted for. */
  predicate VariablesIn(vs: seq<ResolvedVariable>, types: set<TypeId>) {
    forall k | 0 <= k < |vs| :: IsInputKind(vs[k].fieldType.id) ==> vs[k].fieldType.id in types
  }

  lemma {:induction false} VariablesCollected(schema: Schema, vs: seq<ResolvedVariable>, types: set<TypeId>)
    requires schema.IdsInRange() && InRange(schema, vs)
    ensures var r := CollectVariables(schema, vs, types);
            VariablesIn(vs, r) && NewInputsIn(schema, types, r)
  {
    if vs != [] {
      assert vs[|vs| - 1] in vs && forall v | v in vs[..|vs| - 1] :: v in vs;
      VariablesCollected(schema, vs[..|vs| - 1], types);
      var init, t := CollectVariables(schema, vs[..|vs| - 1], types), vs[|vs| - 1].fieldType.id;
      if t.InputId? {
        InputsCollected(schema, schema.inputs[t.id].fields, init + {t});
      }
    }
  }

  lemma {:induction false} VariablesNeeded(schema: Schema, vs: seq<ResolvedVariable>, types: set<TypeId>,
                                           bound: set<TypeId>)
    requires schema.IdsInRange() && InRange(schema, vs)
    requires types <= bound && VariablesIn(vs, bound) && NewInputsIn(schema, {}, bound)
    ensures CollectVariables(schema, vs, types) <= bound
  {
    if vs != [] {
      assert vs[|vs| - 1] in vs && forall v | v in vs[..|vs| - 1] :: v in vs;
      VariablesNeeded(schema, vs[..|vs| - 1], types, bound);
      var init, t := CollectVariables(schema, vs[..|vs| - 1], types), vs[|vs| - 1].fieldType.id;
      if t.InputId? {
        InputsNeeded(schema, schema.inputs[t.id].fields, init + {t}, bound);
      }
    }
  }

  // ----- All that an operation uses -----

  ghost function UsedBy(schema: Schema, a: Arena, operation: nat): Used
    requires schema.Valid() && Walkable(schema, a) && operation < |a.operations| && InRange(schema, a.variables)
  {
    var u := CollectAll(schema, a, a.operations[operation].selectionSet, Used({}, {}));
    Used(CollectVariables(schema, VariablesFor(a.variables, operation), u.types), u.fragments)
  }

  /**
   What using means: the operation's selections, those of its fragments, the types of its
   variables, and the field types of its input types are all accounted for.
   */
  ghost predicate Complete(schema: Schema, a: Arena, operation: nat, u: Used)
    requires schema.Valid() && Walkable(schema, a) && operation < |a.operations| && InRange(schema, a.variables)
  {
    && CoveredAll(schema, a, a.operations[operation].selectionSet, u)
    && FragmentsClosed(schema, a, u)
    && VariablesIn(VariablesFor(a.variables, operation), u.types)
    && NewInputsIn(schema, {}, u.types)
  }

  /** No selection brings in an input type, as fields of objects have output types only. */
  predicate SelectsNoInputs(schema: Schema, a: Arena)
    requires schema.Valid() && Walkable(schema, a)
  {
    forall k | 0 <= k < |a.nodes| && HasChildren(a.nodes[k]) :: !SelectedAt(schema, a, k).InputId?
  }

  function SelectedAt(schema: Schema, a: Arena, k: nat): TypeId
    requires schema.Valid() && k < |a.nodes| && HasChildren(a.nodes[k])
  {
    match a.nodes[k]
    case Field(_, f, _) => if f < |schema.fields| then schema.fields[f].fieldType.id else ScalarId(0)
    case InlineFragment(t, _) => t
  }

  /** Selections bring in no input types. */
  lemma {:induction false} NoInputsCollected(schema: Schema, a: Arena, id: nat, u: Used)
    requires schema.Valid() && Walkable(schema, a) && SelectsNoInputs(schema, a) && id < |a.nodes|
    ensures forall t | t in CollectOne(schema, a, id, u).types && t.InputId? :: t in u.types
    decreases Unvisited(a, u), |a.nodes| - id, 0, 0
  {
    hide Walkable;
    NodeAt(schema, a, id);
    match a.nodes[id]
    case Field(_, f, ids) =>
      assert SelectedAt(schema, a, id) == schema.fields[f].fieldType.id;
      NoneOfAllAreInputs(schema, a, ids, u.(types := u.types + {schema.fields[f].fieldType.id}));
    case InlineFragment(t, ids) =>
      assert SelectedAt(schema, a, id) == t;
      NoneOfAllAreInputs(schema, a, ids, u.(types := u.types + {t}));
    case FragmentSpread(f) =>
      if f !in u.fragments {
        assert f in Unvisited(a, u);
        NoneOfAllAreInputs(schema, a, a.fragments[f].selectionSet, u.(fragments := u.fragments + {f}));
      }
    case Typename =>
  }

  lemma {:induction false} NoneOfAllAreInputs(schema: Schema, a: Arena, ids: seq<nat>, u: Used)
    requires schema.Valid() && Walkable(schema, a) && SelectsNoInputs(schema, a) && InTable(a, ids)
    ensures forall t | t in CollectAll(schema, a, ids, u).types && t.InputId? :: t in u.types
    decreases Unvisited(a, u), |a.nodes| - First(ids, |a.nodes|), 1, |ids|
  {
    hide Walkable, CollectOne, SelectsNoInputs;
    if ids != [] {
      InitInTable(a, ids);
      NoneOfAllAreInputs(schema, a, ids[..|ids| - 1], u);
      var v := CollectAll(schema, a, ids[..|ids| - 1], u);
      assert Unvisited(a, v) <= Unvisited(a, u);
      NoInputsCollected(schema, a, ids[|ids| - 1], v);
    }
  }

  /** Of the input types that came in with selections, the field types are accounted for. */
  ghost predicate SelectedInputsIn(schema: Schema, a: Arena, operation: nat, types: set<TypeId>)
    requires schema.Valid() && Walkable(schema, a) && operation < |a.operations|
  {
    var selected := CollectAll(schema, a, a.operations[operation].selectionSet, Used({}, {})).types;
    forall i | 0 <= i < |schema.inputs| && InputId(i) in selected :: FieldsIn(schema.inputs[i].fields, types)
  }

  /**
   What is collected is contained in whatever is complete; and it is complete, so exactly what
   is used, if and only if it has the field types of the input types that selections bring in:
   such a type is marked as visited without its fields being walked.  If no selection brings in
   an input type, it is complete.
   */
  lemma UsedIsLeastComplete(schema: Schema, a: Arena, operation: nat)
    requires schema.Valid() && Walkable(schema, a) && operation < |a.operations| && InRange(schema, a.variables)
    ensures var r := UsedBy(schema, a, operation);
            && (Complete(schema, a, operation, r) ==> SelectedInputsIn(schema, a, operation, r.types))
            && (SelectedInputsIn(schema, a, operation, r.types) ==> Complete(schema, a, operation, r))
            && (SelectsNoInputs(schema, a) ==> Complete(schema, a, operation, r))
    ensures forall bound | Complete(schema, a, operation, bound) :: UsedBy(schema, a, operation).Within(bound)
  {
    hide CollectAll, CollectVariables, CoveredAll, VariablesFor, InRange;
    var ids := a.operations[operation].selectionSet;
    var vs := VariablesFor(a.variables, operation);
    OwnInRange(schema, a.variables, operation);
    var nothing := Used({}, {});
    var u, r := CollectAll(schema, a, ids, nothing), UsedBy(schema, a, operation);
    AllCollectedAreCovered(schema, a, ids, nothing);
    VariablesCollected(schema, vs, u.types);
    CoveredAllStays(schema, a, ids, u, r);
    forall f: nat | f < |a.fragments| && f in r.fragments
      ensures CoveredAll(schema, a, a.fragments[f].selectionSet, r)
    {
      CoveredAllStays(schema, a, a.fragments[f].selectionSet, u, r);
    }
    if SelectsNoInputs(schema, a) {
      NoneOfAllAreInputs(schema, a, ids, nothing);
    }
    forall bound | Complete(schema, a, operation, bound) ensures r.Within(bound) {
      AllCollectedAreNeeded(schema, a, ids, nothing, bound);
      VariablesNeeded(schema, vs, u.types, bound.types);
    }
  }

  lemma OwnInRange(schema: Schema, vs: seq<ResolvedVariable>, operation: nat)
    requires InRange(schema, vs)
    ensures InRange(schema, VariablesFor(vs, operation))
  {
  }

  // ----- The code -----

  class UsedTypes {
    var types: set<TypeId>
    var fragments: set<nat>

    ghost function Abs(): Used
      reads this
    {
      Used(types, fragments)
    }

    constructor ()
      ensures Abs() == Used({}, {})
    {
      types, fragments := {}, {};
    }

    /** `Selection::collect_used_types`. */
    method CollectSelection(schema: Schema, a: Arena, id: nat)
      requires schema.Valid() && Walkable(schema, a) && id < |a.nodes|
      modifies this
      ensures Abs() == CollectOne(schema, a, id, old(Abs()))
      decreases Unvisited(a, Abs()), |a.nodes| - id, 0
    {
      hide Walkable;
      NodeAt(schema, a, id);
      match a.nodes[id] {
        case Field(_, f, ids) =>
          types := types + {schema.fields[f].fieldType.id};
          CollectSelections(schema, a, ids);
        case InlineFragment(t, ids) =>
          types := types + {t};
          CollectSelections(schema, a, ids);
        case FragmentSpread(f) =>
          if f in fragments {
            return;
          }
          assert f in Unvisited(a, Abs());
          fragments := fragments + {f};
          CollectSelections(schema, a, a.fragments[f].selectionSet);
        case Typename =>
      }
    }

    method CollectSelections(schema: Schema, a: Arena, ids: seq<nat>)
      requires schema.Valid() && Walkable(schema, a) && InTable(a, ids)
      modifies this
      ensures Abs() == CollectAll(schema, a, ids, old(Abs()))
      decreases Unvisited(a, Abs()), |a.nodes| - First(ids, |a.nodes|), 1
    {
      hide Walkable, CollectOne;
      for i := 0 to |ids|
        invariant InTable(a, ids[..i])
        invariant Abs() == CollectAll(schema, a, ids[..i], old(Abs()))
      {
        PartInTable(a, ids, i);
        assert ids[..i + 1][..i] == ids[..i];
        assert Unvisited(a, Abs()) <= Unvisited(a, old(Abs()));
        CollectSelection(schema, a, ids[i]);
      }
      assert ids[..|ids|] == ids;
    }

    /** `used_input_ids_recursive`. */
    method CollectInputTypes(schema: Schema, fields: seq<InputField>)
      requires schema.IdsInRange() && forall k | 0 <= k < |fields| :: schema.Has(fields[k].fieldType.id)
      modifies this`types
      ensures types == CollectInputs(schema, fields, old(types))
      decreases UnvisitedInputs(schema, types)
    {
      for i := 0 to |fields|
        invariant types == CollectInputs(schema, fields[..i], old(types))
      {
        assert fields[..i + 1][..i] == fields[..i];
        var t := fields[i].fieldType.id;
        assert schema.Has(t);
        match t {
          case InputId(n) =>
            if t in types {
              continue;
            }
            assert UnvisitedInputs(schema, types) <= UnvisitedInputs(schema, old(types))
                   && n in UnvisitedInputs(schema, types);
            types := types + {t};
            CollectInputTypes(schema, schema.inputs[n].fields);
          case EnumId(_) => types := types + {t};
          case ScalarId(_) => types := types + {t};
          case _ =>
        }
      }
      assert fields[..|fields|] == fields;
    }

    method CollectVariableTypes(schema: Schema, v: ResolvedVariable)
      requires schema.IdsInRange() && schema.Has(v.fieldType.id)
      modifies this`types
      ensures types == CollectVariable(schema, v, old(types))
    {
      var t := v.fieldType.id;
      match t {
        case InputId(n) =>
          types := types + {t};
          CollectInputTypes(schema, schema.inputs[n].fields);
        case EnumId(_) => types := types + {t};
        case ScalarId(_) => types := types + {t};
        case _ =>
      }
    }
  }

  lemma PartInTable(a: Arena, ids: seq<nat>, i: nat)
    requires InTable(a, ids) && i < |ids|
    ensures InTable(a, ids[..i + 1]) && ids[0] <= ids[i] < |a.nodes|
  {
    assert ids[i] in ids && forall c | c in ids[..i + 1] :: c in ids;
  }

  /** `all_used_types`. */
  method AllUsedTypes(schema: Schema, a: Arena, operation: nat) returns (used: UsedTypes)
    requires schema.Valid() && Walkable(schema, a) && operation < |a.operations| && InRange(schema, a.variables)
    ensures fresh(used) && used.Abs() == UsedBy(schema, a, operation)
  {
    used := new UsedTypes();
    used.CollectSelections(schema, a, a.operations[operation].selectionSet);
    ghost var u := used.Abs();
    var vs := VariablesFor(a.variables, operation);
    for i := 0 to |vs|
      invariant used.fragments == u.fragments
      invariant InRange(schema, vs[..i]) && used.types == CollectVariables(schema, vs[..i], u.types)
    {
      assert vs[..i + 1][..i] == vs[..i] && vs[i] in vs;
      used.CollectVariableTypes(schema, vs[i]);
    }
    assert vs[..|vs|] == vs;
  }
}
