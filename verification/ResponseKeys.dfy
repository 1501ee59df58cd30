/**
 The fields of generated structs against the selections as they were written: which keys of
 the response they are read from, in which order, and with which types.
 */
module ResponseKeys {
  import opened Wrappers
  import Ast
  import opened TypeQualifiers
  import opened Schemas
  import opened Arenas
  import opened ArenaShape
  import opened Resolution
  import opened ReadBack
  import opened ResolvedDocuments
  import opened Walks
  import opened UsedTypes
  import opened Expansion
  import opened ExpandedSelections
  import opened VariantContents

  // ----- Keys, as written and as read back -----

  /** The key in the response is the alias, if there is one. */
  function KeyOf(alias: Option<string>, name: string): string {
    if alias.Some? then alias.value else name
  }

  /** The keys of the fields among the selections; `__typename` and what is under fragments have none here. */
  function Keys(ts: seq<Tree>): seq<string> {
    if ts == [] then []
    else Keys(ts[..|ts| - 1]) + match ts[|ts| - 1] case TField(alias, name, _) => [KeyOf(alias, name)] case _ => []
  }

  function WrittenKeys(items: seq<Ast.Selection>): seq<string> {
    if items == [] then []
    else
      WrittenKeys(items[..|items| - 1]) +
      match items[|items| - 1]
      case Field(alias, name, _, _, _) => if name == "__typename" then [] else [KeyOf(alias, name)]
      case _ => []
  }

  lemma {:induction false} WrittenHaveKeys(items: seq<Ast.Selection>)
    ensures Keys(WrittenAll(items)) == WrittenKeys(items)
  {
    if items != [] {
      var init, last := items[..|items| - 1], items[|items| - 1];
      WrittenHaveKeys(init);
      assert WrittenAll(items)[..|items| - 1] == WrittenAll(init);
    }
  }

  // ----- The fields for a selection set -----

  /** The selected fields, in order. */
  function Selected(cx: Context, ids: seq<nat>): (fs: seq<nat>)
    requires InTable(cx.a, ids)
    ensures forall f | f in fs :: f < |cx.a.nodes| && cx.a.nodes[f].Field?
  {
    if ids == [] then []
    else
      InitInTable(cx.a, ids);
      var last := ids[|ids| - 1];
      Selected(cx, ids[..|ids| - 1]) + if cx.a.nodes[last].Field? then [last] else []
  }

  /** The fragments on type `t` that are spread, in order. */
  function SpreadOn(cx: Context, ids: seq<nat>, t: TypeId): (fs: seq<nat>)
    requires Ready(cx) && InTable(cx.a, ids)
    ensures forall f | f in fs :: f < |cx.a.fragments|
  {
    if ids == [] then []
    else
      InitInTable(cx.a, ids);
      var last := ids[|ids| - 1];
      NodeAt(cx.schema, cx.a, last);
      SpreadOn(cx, ids[..|ids| - 1], t) +
      match cx.a.nodes[last]
      case FragmentSpread(f) => if cx.a.fragments[f].on == t then [f] else []
      case _ => []
  }

  /** The fields that are read from keys of their own, and those that take in all keys. */
  function Keyed(fields: seq<ExpandedField>): seq<ExpandedField> {
    if fields == [] then []
    else
      var last := fields[|fields| - 1];
      Keyed(fields[..|fields| - 1]) + if last.flatten then [] else [last]
  }

  function Flattened(fields: seq<ExpandedField>): seq<ExpandedField> {
    if fields == [] then []
    else
      var last := fields[|fields| - 1];
      Flattened(fields[..|fields| - 1]) + if last.flatten then [last] else []
  }

  /** The Rust type a field refers to: that of its enum or scalar, or a struct of its own. */
  predicate RefersTo(cx: Context, id: nat, name: string)
    requires Ready(cx) && id < |cx.a.nodes| && cx.a.nodes[id].Field?
  {
    FieldTypeKnown(cx, id);
    match cx.schema.fields[cx.a.nodes[id].fieldId].fieldType.id
    case EnumId(e) => name == cx.typeName(cx.schema.enums[e].name)
    case ScalarId(c) => name == cx.typeName(cx.schema.scalars[c])
    case _ => name == StructName(cx, FromField(id))
  }

  /** The struct field reads the response key of the selected field, with the type and deprecation of the schema. */
  predicate StandsFor(cx: Context, e: ExpandedField, id: nat, s: nat)
    requires Ready(cx) && id < |cx.a.nodes| && cx.a.nodes[id].Field?
  {
    FieldTypeKnown(cx, id);
    var field := cx.schema.fields[cx.a.nodes[id].fieldId];
    && e.structId == s && e.graphqlName == Some(KeyOf(cx.a.nodes[id].alias, field.name))
    && e.qualifiers == field.fieldType.qualifiers && e.deprecation == field.deprecation && !e.boxed
    && RefersTo(cx, id, e.fieldType)
  }

  /** One field for each, in order. */
  predicate StandForAll(cx: Context, es: seq<ExpandedField>, ids: seq<nat>, s: nat)
    requires Ready(cx) && forall f | f in ids :: f < |cx.a.nodes| && cx.a.nodes[f].Field?
  {
    |es| == |ids| && forall k | 0 <= k < |ids| :: (assert ids[k] in ids; StandsFor(cx, es[k], ids[k], s))
  }

  /** A flattened field holds the struct of the fragment. */
  predicate HoldAll(cx: Context, es: seq<ExpandedField>, fs: seq<nat>, s: nat)
    requires Ready(cx) && forall f | f in fs :: f < |cx.a.fragments|
  {
    && |es| == |fs|
    && forall k | 0 <= k < |fs| ::
         assert fs[k] in fs;
         && es[k].structId == s && es[k].graphqlName == None && es[k].fieldType == cx.a.fragments[fs[k]].name
         && es[k].qualifiers == [Required] && es[k].deprecation == None
         && es[k].boxed == SpreadRecursive(cx, fs[k])
  }

  lemma SelectedFieldStands(cx: Context, id: nat, t: TypeId, s: nat)
    requires Ready(cx) && id < |cx.a.nodes| && cx.a.nodes[id].Field?
    ensures var es := FieldFor(cx, id, t, s);
            |es| == 1 && !es[0].flatten && StandsFor(cx, es[0], id, s)
  {
    FieldTypeKnown(cx, id);
    hide Walkable, PathName, ChainTo;
  }

  lemma SpreadHolds(cx: Context, id: nat, t: TypeId, s: nat)
    requires Ready(cx) && id < |cx.a.nodes| && cx.a.nodes[id].FragmentSpread?
    ensures cx.a.nodes[id].fragmentId < |cx.a.fragments|
    ensures var es, f := FieldFor(cx, id, t, s), cx.a.nodes[id].fragmentId;
            if cx.a.fragments[f].on == t then |es| == 1 && es[0].flatten && HoldAll(cx, es, [f], s) else es == []
  {
    NodeAt(cx.schema, cx.a, id);
    hide Walkable, FragmentIsRecursive;
  }

  lemma NoField(cx: Context, id: nat, t: TypeId, s: nat)
    requires Ready(cx) && id < |cx.a.nodes| && !cx.a.nodes[id].Field? && !cx.a.nodes[id].FragmentSpread?
    ensures FieldFor(cx, id, t, s) == []
  {
  }

  lemma KeyedMore(es: seq<ExpandedField>, more: seq<ExpandedField>)
    requires |more| <= 1
    ensures Keyed(es + more) == Keyed(es) + if more != [] && !more[0].flatten then more else []
    ensures Flattened(es + more) == Flattened(es) + if more != [] && more[0].flatten then more else []
  {
    if more == [] {
      assert es + more == es;
    } else {
      assert (es + more)[..|es|] == es;
    }
  }

  /** What one more selection adds. */
  lemma OneMoreField(cx: Context, ids: seq<nat>, t: TypeId, s: nat)
    requires Ready(cx) && InTable(cx.a, ids) && ids != []
    ensures InTable(cx.a, ids[..|ids| - 1]) && ids[|ids| - 1] < |cx.a.nodes|
    ensures var es, fs := FieldFor(cx, ids[|ids| - 1], t, s), AllFields(cx, ids[..|ids| - 1], t, s);
            && Keyed(AllFields(cx, ids, t, s)) == Keyed(fs) + (if cx.a.nodes[ids[|ids| - 1]].Field? then es else [])
            && Flattened(AllFields(cx, ids, t, s)) ==
               Flattened(fs) + (if cx.a.nodes[ids[|ids| - 1]].FragmentSpread? then es else [])
  {
    InitInTable(cx.a, ids);
    var init, last := ids[..|ids| - 1], ids[|ids| - 1];
    if cx.a.nodes[last].Field? {
      SelectedFieldStands(cx, last, t, s);
    } else if cx.a.nodes[last].FragmentSpread? {
      SpreadHolds(cx, last, t, s);
    } else {
      NoField(cx, last, t, s);
    }
    hide Ready, FieldFor, StandsFor, HoldAll;
    KeyedMore(AllFields(cx, init, t, s), FieldFor(cx, last, t, s));
  }

  /** The keyed fields for a selection set: one for each selected field, in order. */
  lemma {:induction false} FieldsStand(cx: Context, ids: seq<nat>, t: TypeId, s: nat)
    requires Ready(cx) && InTable(cx.a, ids)
    ensures StandForAll(cx, Keyed(AllFields(cx, ids, t, s)), Selected(cx, ids), s)
  {
    if ids != [] {
      OneMoreField(cx, ids, t, s);
      hide Ready, FieldFor, StandsFor, AllFields;
      FieldsStand(cx, ids[..|ids| - 1], t, s);
      if cx.a.nodes[ids[|ids| - 1]].Field? {
        SelectedFieldStands(cx, ids[|ids| - 1], t, s);
      }
    } else {
      assert AllFields(cx, ids, t, s) == [];
    }
  }

  /** The others: one for each spread on the type, in order. */
  lemma {:induction false} SpreadsHold(cx: Context, ids: seq<nat>, t: TypeId, s: nat)
    requires Ready(cx) && InTable(cx.a, ids)
    ensures HoldAll(cx, Flattened(AllFields(cx, ids, t, s)), SpreadOn(cx, ids, t), s)
  {
    if ids == [] {
      assert AllFields(cx, ids, t, s) == [];
    } else {
      var init, last := ids[..|ids| - 1], ids[|ids| - 1];
      OneMoreField(cx, ids, t, s);
      SpreadInTurn(cx, ids, t);
      hide Ready, FieldFor, AllFields, HoldAll, SpreadOn, Flattened;
      SpreadsHold(cx, init, t, s);
      var before, held := Flattened(AllFields(cx, init, t, s)), SpreadOn(cx, init, t);
      assert before + [] == before && held + [] == held;
      if cx.a.nodes[last].FragmentSpread? {
        SpreadHolds(cx, last, t, s);
        var f := cx.a.nodes[last].fragmentId;
        if cx.a.fragments[f].on == t {
          HoldBoth(cx, before, FieldFor(cx, last, t, s), held, [f], s);
        }
      }
    }
  }

  lemma SpreadInTurn(cx: Context, ids: seq<nat>, t: TypeId)
    requires Ready(cx) && InTable(cx.a, ids) && ids != []
    ensures InTable(cx.a, ids[..|ids| - 1]) && ids[|ids| - 1] < |cx.a.nodes|
    ensures var held := SpreadOn(cx, ids[..|ids| - 1], t);
            SpreadOn(cx, ids, t) == held +
              match cx.a.nodes[ids[|ids| - 1]]
              case FragmentSpread(f) => if f < |cx.a.fragments| && cx.a.fragments[f].on == t then [f] else []
              case _ => []
  {
    InitInTable(cx.a, ids);
    NodeAt(cx.schema, cx.a, ids[|ids| - 1]);
    hide Ready;
  }

  lemma HoldBoth(cx: Context, es: seq<ExpandedField>, more: seq<ExpandedField>, fs: seq<nat>, others: seq<nat>, s: nat)
    requires Ready(cx) && (forall f | f in fs || f in others :: f < |cx.a.fragments|)
    requires HoldAll(cx, es, fs, s) && HoldAll(cx, more, others, s)
    ensures (forall f | f in fs + others :: f < |cx.a.fragments|) && HoldAll(cx, es + more, fs + others, s)
  {
    hide Ready, SpreadRecursive;
  }

  /** The fields are read from these keys, in order. */
  predicate ReadFrom(es: seq<ExpandedField>, keys: seq<string>) {
    |es| == |keys| && forall k | 0 <= k < |es| :: es[k].graphqlName == Some(keys[k])
  }

  lemma ReadInTurn(schema: Schema, a: Arena, typed: bool, ids: seq<nat>)
    requires schema.Valid() && Shaped(schema, a, typed) && InTable(a, ids) && ids != []
    ensures InTable(a, ids[..|ids| - 1]) && ids[|ids| - 1] < |a.nodes|
    ensures ReadAll(schema, a, typed, ids) ==
            ReadAll(schema, a, typed, ids[..|ids| - 1]) + [Read(schema, a, typed, ids[|ids| - 1])]
  {
    InitInTable(a, ids);
    hide Shaped, Read;
  }

  lemma KeysInTurn(ts: seq<Tree>, t: Tree)
    ensures Keys(ts + [t]) == Keys(ts) + match t case TField(alias, name, _) => [KeyOf(alias, name)] case _ => []
  {
    assert (ts + [t])[..|ts|] == ts;
  }

  /** The keys of the selected fields are those that reading the table back gives. */
  lemma {:induction false} SelectedHaveKeys(cx: Context, typed: bool, ids: seq<nat>, es: seq<ExpandedField>, s: nat)
    requires Ready(cx) && Shaped(cx.schema, cx.a, typed) && InTable(cx.a, ids)
    requires StandForAll(cx, es, Selected(cx, ids), s)
    ensures ReadFrom(es, Keys(ReadAll(cx.schema, cx.a, typed, ids)))
    decreases |ids|
  {
    if ids == [] {
      NothingHasKeys(cx, typed);
    } else {
      var init, last := ids[..|ids| - 1], ids[|ids| - 1];
      ReadInTurn(cx.schema, cx.a, typed, ids);
      ReadTells(cx, typed, last);
      SelectedInTurn(cx, ids, es, s);
      hide Ready, Shaped, ReadAll, Keys, StandForAll, Selected, Read, ReadFrom;
      var before := ReadAll(cx.schema, cx.a, typed, init);
      KeysInTurn(before, Read(cx.schema, cx.a, typed, last));
      if cx.a.nodes[last].Field? {
        SelectedHaveKeys(cx, typed, init, es[..|es| - 1], s);
        ReadFromMore(es, Keys(before), KeyAt(cx, last));
      } else {
        SelectedHaveKeys(cx, typed, init, es, s);
        assert Keys(before) + [] == Keys(before);
      }
    }
  }

  lemma ReadFromMore(es: seq<ExpandedField>, keys: seq<string>, key: string)
    requires es != [] && ReadFrom(es[..|es| - 1], keys) && es[|es| - 1].graphqlName == Some(key)
    ensures ReadFrom(es, keys + [key])
  {
  }

  /** The key of a selected field. */
  function KeyAt(cx: Context, k: nat): string
    requires Ready(cx) && k < |cx.a.nodes| && cx.a.nodes[k].Field?
  {
    FieldTypeKnown(cx, k);
    KeyOf(cx.a.nodes[k].alias, cx.schema.fields[cx.a.nodes[k].fieldId].name)
  }

  lemma ReadTells(cx: Context, typed: bool, k: nat)
    requires Ready(cx) && Shaped(cx.schema, cx.a, typed) && k < |cx.a.nodes|
    ensures var t := Read(cx.schema, cx.a, typed, k);
            && t.TField? == cx.a.nodes[k].Field?
            && (t.TField? ==> KeyOf(t.alias, t.name) == KeyAt(cx, k))
  {
    hide Shaped, ReadAll;
    if cx.a.nodes[k].Field? {
      FieldTypeKnown(cx, k);
    }
  }

  lemma SelectedInTurn(cx: Context, ids: seq<nat>, es: seq<ExpandedField>, s: nat)
    requires Ready(cx) && InTable(cx.a, ids) && ids != []
    requires StandForAll(cx, es, Selected(cx, ids), s)
    ensures var init, last := ids[..|ids| - 1], ids[|ids| - 1];
            && InTable(cx.a, init) && last < |cx.a.nodes|
            && if cx.a.nodes[last].Field? then
                 && es != [] && StandForAll(cx, es[..|es| - 1], Selected(cx, init), s)
                 && es[|es| - 1].graphqlName == Some(KeyAt(cx, last))
               else StandForAll(cx, es, Selected(cx, init), s)
  {
    InitInTable(cx.a, ids);
    var init, last := ids[..|ids| - 1], ids[|ids| - 1];
    var f := Selected(cx, ids);
    if cx.a.nodes[last].Field? {
      assert f == Selected(cx, init) + [last] && f[|f| - 1] == last && f[|f| - 1] in f;
      assert StandsFor(cx, es[|f| - 1], f[|f| - 1], s);
    }
    hide Ready, StandsFor;
  }

  lemma NothingHasKeys(cx: Context, typed: bool)
    requires Ready(cx) && Shaped(cx.schema, cx.a, typed) && InTable(cx.a, [])
    ensures Keys(ReadAll(cx.schema, cx.a, typed, [])) == []
  {
    hide Shaped;
  }

  // ----- Every struct of an expansion -----

  /** A struct made for the selections `ids` on type `t`; an alias has no fields. */
  predicate HasFieldsOf(cx: Context, fields: seq<ExpandedField>, ids: seq<nat>, t: TypeId, s: nat)
    requires Ready(cx) && InTable(cx.a, ids)
  {
    if Lone(cx, ids) then fields == []
    else
      StandForAll(cx, Keyed(fields), Selected(cx, ids), s) && HoldAll(cx, Flattened(fields), SpreadOn(cx, ids, t), s)
  }

  lemma PartsHaveFields(cx: Context, ids: seq<nat>, t: TypeId, s: nat)
    requires Ready(cx) && InTable(cx.a, ids) && cx.schema.Has(t)
    ensures HasFieldsOf(cx, PartsFor(cx, ids, t, s).fields, ids, t, s)
  {
    hide AllFields, AllVariants, Variants, Walkable, FragmentIsRecursive;
    if !Lone(cx, ids) {
      FieldsStand(cx, ids, t, s);
      SpreadsHold(cx, ids, t, s);
    }
  }

  /**
   In every expansion, a struct made for the root or for a field has one keyed field for each
   field selected there, in order, read from the key of the response that the selection has,
   with the qualifiers and the deprecation of the schema, and referring to the enum, scalar or
   struct for it; and one flattened field for each spread on its type.
   */
  lemma EveryStructHasItsFields(cx: Context, out: Out, j: nat)
    requires Ready(cx) && Settled(cx, out, j) && SelectionsOf(cx, out.origins[j]).Some?
    ensures var (ids, t) := SelectionsOf(cx, out.origins[j]).value;
            InTable(cx.a, ids) && HasFieldsOf(cx, FieldsOn(out.fields, j), ids, t, j)
  {
    SelectionsKnown(cx, out.origins[j]);
    hide Walkable, Linked, NodesInRange, SelectsNoInputs, RootsInRange, OriginOk, StructName, PartsFor, HasFieldsOf;
    var (ids, t) := SelectionsOf(cx, out.origins[j]).value;
    assert On(out, j) == PartsFor(cx, ids, t, j);
    PartsHaveFields(cx, ids, t, j);
  }

  // ----- Structs of variants -----

  function Repeat(n: nat, ids: seq<nat>): seq<nat> {
    if n == 0 then [] else Repeat(n - 1, ids) + ids
  }

  lemma {:induction false} RepeatHolds(n: nat, ids: seq<nat>, x: nat)
    ensures x in Repeat(n, ids) ==> x in ids
  {
    if n > 0 {
      RepeatHolds(n - 1, ids, x);
    }
  }

  lemma {:induction false} KeyedBoth(es: seq<ExpandedField>, more: seq<ExpandedField>)
    ensures Keyed(es + more) == Keyed(es) + Keyed(more)
  {
    if more == [] {
      assert es + more == es;
    } else {
      var init, last := more[..|more| - 1], more[|more| - 1];
      var all := es + more;
      assert all[..|all| - 1] == es + init && all[|all| - 1] == last;
      KeyedBoth(es, init);
      var own := if last.flatten then [] else [last];
      assert Keyed(all) == Keyed(es + init) + own && Keyed(more) == Keyed(init) + own;
      hide Keyed;
      Regrouped(Keyed(es), Keyed(init), own);
    }
  }

  lemma Regrouped<T>(a: seq<T>, b: seq<T>, c: seq<T>)
    ensures a + (b + c) == (a + b) + c
  {
  }

  /** What is read under the first selection on a variant: the fields selected there, unless it is one spread. */
  function UnderFirst(cx: Context, first: nat): (fs: seq<nat>)
    requires Ready(cx) && first < |cx.a.nodes|
    ensures forall f | f in fs :: f < |cx.a.nodes| && cx.a.nodes[f].Field?
  {
    NodeAt(cx.schema, cx.a, first);
    var below := cx.a.nodes[first].Subselection();
    if Lone(cx, below) then [] else Selected(cx, below)
  }

  lemma RepeatedAreFields(cx: Context, n: nat, first: nat)
    requires Ready(cx) && first < |cx.a.nodes|
    ensures forall f | f in Repeat(n, UnderFirst(cx, first)) :: f < |cx.a.nodes| && cx.a.nodes[f].Field?
  {
    var under := UnderFirst(cx, first);
    hide Ready, UnderFirst;
    forall f | f in Repeat(n, under) ensures f in under { RepeatHolds(n, under, f); }
  }

  predicate EachStandsIn(cx: Context, ms: seq<nat>, first: nat, v: TypeId, s: nat)
    requires Ready(cx) && AllNodes(cx.a, ms) && first < |cx.a.nodes| && cx.schema.Has(v)
  {
    RepeatedAreFields(cx, Inlines(cx, ms), first);
    StandForAll(cx, Keyed(PartsOfEach(cx, ms, first, v, s).fields), Repeat(Inlines(cx, ms), UnderFirst(cx, first)), s)
  }

  lemma {:induction false} EachStands(cx: Context, ms: seq<nat>, first: nat, v: TypeId, s: nat)
    requires Ready(cx) && AllNodes(cx.a, ms) && first < |cx.a.nodes| && cx.schema.Has(v)
    ensures EachStandsIn(cx, ms, first, v, s)
  {
    if ms == [] {
      assert PartsOfEach(cx, ms, first, v, s) == NONE;
    } else {
      var init, last := ms[..|ms| - 1], ms[|ms| - 1];
      EachStands(cx, init, first, v, s);
      GivenStands(cx, last, first, v, s);
      GivenIsPushed(cx, ms, first, v, s);
      OneMoreStands(cx, ms, first, v, s);
    }
  }

  /** What one more selection on the variant adds. */
  function Added(cx: Context, m: nat, first: nat): (fs: seq<nat>)
    requires Ready(cx) && m < |cx.a.nodes| && first < |cx.a.nodes|
    ensures forall f | f in fs :: f < |cx.a.nodes| && cx.a.nodes[f].Field?
  {
    if cx.a.nodes[m].InlineFragment? then UnderFirst(cx, first) else []
  }

  lemma RepeatInTurn(cx: Context, ms: seq<nat>, first: nat)
    requires Ready(cx) && AllNodes(cx.a, ms) && first < |cx.a.nodes| && ms != []
    ensures var under := UnderFirst(cx, first);
            Repeat(Inlines(cx, ms), under) ==
            Repeat(Inlines(cx, ms[..|ms| - 1]), under) + Added(cx, ms[|ms| - 1], first)
  {
    hide Ready, UnderFirst;
    var under := UnderFirst(cx, first);
    assert Repeat(Inlines(cx, ms[..|ms| - 1]), under) + [] == Repeat(Inlines(cx, ms[..|ms| - 1]), under);
  }

  lemma OneMoreStands(cx: Context, ms: seq<nat>, first: nat, v: TypeId, s: nat)
    requires Ready(cx) && AllNodes(cx.a, ms) && first < |cx.a.nodes| && cx.schema.Has(v) && ms != []
    requires EachStandsIn(cx, ms[..|ms| - 1], first, v, s)
    requires StandForAll(cx, Keyed(Given(cx, ms[|ms| - 1], first, v, s).fields), Added(cx, ms[|ms| - 1], first), s)
    requires PartsOfEach(cx, ms, first, v, s) ==
             PartsOfEach(cx, ms[..|ms| - 1], first, v, s).And(Given(cx, ms[|ms| - 1], first, v, s))
    ensures EachStandsIn(cx, ms, first, v, s)
  {
    hide Ready, StandForAll, PartsOfEach, Given, UnderFirst, Added, Keyed, Repeat, Inlines;
    var init, last := ms[..|ms| - 1], ms[|ms| - 1];
    var before, own := PartsOfEach(cx, init, first, v, s).fields, Given(cx, last, first, v, s).fields;
    KeyedBoth(before, own);
    RepeatedAreFields(cx, Inlines(cx, init), first);
    RepeatInTurn(cx, ms, first);
    var stood := Repeat(Inlines(cx, init), UnderFirst(cx, first));
    StandBoth(cx, Keyed(before), Keyed(own), stood, Added(cx, last, first), s);
  }

  lemma StandBoth(cx: Context, es: seq<ExpandedField>, more: seq<ExpandedField>, ids: seq<nat>, others: seq<nat>,
                  s: nat)
    requires Ready(cx)
    requires forall f | f in ids || f in others :: f < |cx.a.nodes| && cx.a.nodes[f].Field?
    requires StandForAll(cx, es, ids, s) && StandForAll(cx, more, others, s)
    ensures forall f | f in ids + others :: f < |cx.a.nodes| && cx.a.nodes[f].Field?
    ensures StandForAll(cx, es + more, ids + others, s)
  {
    hide Ready, StandsFor;
  }

  lemma GivenStands(cx: Context, m: nat, first: nat, v: TypeId, s: nat)
    requires Ready(cx) && m < |cx.a.nodes| && first < |cx.a.nodes| && cx.schema.Has(v)
    ensures var es := Given(cx, m, first, v, s).fields;
            StandForAll(cx, Keyed(es), Added(cx, m, first), s)
  {
    NodeAt(cx.schema, cx.a, first);
    NodeAt(cx.schema, cx.a, m);
    var below := cx.a.nodes[first].Subselection();
    PartsHaveFields(cx, below, v, s);
    hide PartsFor, StandsFor, Walkable, FragmentIsRecursive;
    if cx.a.nodes[m].FragmentSpread? {
      var es := Given(cx, m, first, v, s).fields;
      assert |es| == 1 && es[0].flatten && es[..0] == [];
    }
  }

  /**
   In the struct of a variant, the keyed fields are those selected under the first selection,
   once for each inline fragment.
   */
  lemma VariantsHaveTheirFields(cx: Context, out: Out, j: nat)
    requires Ready(cx) && Settled(cx, out, j) && out.origins[j].FromVariant?
    ensures var ms := out.origins[j].selections;
            && ms != [] && AllNodes(cx.a, ms)
            && (forall f | f in Repeat(Inlines(cx, ms), UnderFirst(cx, ms[0])) ::
                  f < |cx.a.nodes| && cx.a.nodes[f].Field?)
            && StandForAll(cx, Keyed(FieldsOn(out.fields, j)), Repeat(Inlines(cx, ms), UnderFirst(cx, ms[0])), j)
  {
    var ms, v := out.origins[j].selections, out.origins[j].on;
    assert On(out, j) == VariantParts(cx, ms, v, j);
    hide Ready, StandForAll, VariantParts, UnderFirst;
    VariantStands(cx, ms, v, j);
  }

  lemma VariantStands(cx: Context, ms: seq<nat>, v: TypeId, s: nat)
    requires Ready(cx) && AllNodes(cx.a, ms) && ms != [] && cx.schema.Has(v)
    ensures forall f | f in Repeat(Inlines(cx, ms), UnderFirst(cx, ms[0])) ::
              f < |cx.a.nodes| && cx.a.nodes[f].Field?
    ensures StandForAll(cx, Keyed(VariantParts(cx, ms, v, s).fields), Repeat(Inlines(cx, ms), UnderFirst(cx, ms[0])), s)
  {
    RepeatedAreFields(cx, Inlines(cx, ms), ms[0]);
    if |ms| == 1 && cx.a.nodes[ms[0]].FragmentSpread? {
      hide Ready, StandsFor, PartsOfEach, UnderFirst;
      assert ms[..0] == [] && Inlines(cx, ms[..0]) == 0 && Inlines(cx, ms) == 0;
    } else {
      EachStands(cx, ms, ms[0], v, s);
      hide Ready, StandForAll, PartsOfEach, UnderFirst, Repeat, Keyed, Inlines;
    }
  }

  // ----- Back to the document -----

  /** The struct is an alias of a fragment, as nothing but one spread was selected. */
  predicate IsAlias(cx: Context, o: Origin)
    requires Ready(cx) && OriginOk(cx, o)
  {
    SelectionsOf(cx, o).Some? && (SelectionsKnown(cx, o); Lone(cx, SelectionsOf(cx, o).value.0))
  }

  lemma KeysOfSet(cx: Context, typed: bool, out: Out, j: nat)
    requires Ready(cx) && Shaped(cx.schema, cx.a, typed) && Settled(cx, out, j)
    requires SelectionsOf(cx, out.origins[j]).Some? && !IsAlias(cx, out.origins[j])
    ensures var ids := SelectionsOf(cx, out.origins[j]).value.0;
            InTable(cx.a, ids) && ReadFrom(Keyed(FieldsOn(out.fields, j)), Keys(ReadAll(cx.schema, cx.a, typed, ids)))
  {
    EveryStructHasItsFields(cx, out, j);
    hide Ready, Shaped, Settled, OriginOk;
    var ids := SelectionsOf(cx, out.origins[j]).value.0;
    SelectedHaveKeys(cx, typed, ids, Keyed(FieldsOn(out.fields, j)), j);
  }

  /**
   The struct of an operation or a fragment of a document with unique names reads exactly the
   keys that its selections were written with, in the order of the document.
   */
  lemma {:induction false} RootsReadWrittenKeys(cx: Context, doc: Ast.Document, root: Parent, out: Out)
    requires Ready(cx) && Resolved(cx.schema, doc) == Success(cx.a) && UniquelyNamed(doc.definitions)
    requires IsRoot(root) && HasParent(cx.a, root) && Whole(cx, root, out)
    ensures var defs := if root.OfFragment? then Fragments(doc.definitions) else Operations(doc.definitions);
            && root.id < |defs| && out.types != []
            && (Lone(cx, RootSelections(cx, root).0) ==> FieldsOn(out.fields, 0) == [])
            && (!Lone(cx, RootSelections(cx, root).0) ==>
                  ReadFrom(Keyed(FieldsOn(out.fields, 0)), WrittenKeys(defs[root.id].selectionSet)))
  {
    ResolvedReadsAsWritten(cx.schema, doc);
    hide Resolved, Shaped, Walkable, Linked, NodesInRange, SelectsNoInputs, RootsInRange, UniquelyNamed, Structs,
         Fragments, Operations, PartsOf, StructName;
    var defs := if root.OfFragment? then Fragments(doc.definitions) else Operations(doc.definitions);
    assert Settled(cx, out, 0) && out.origins[0] == FromRoot(root);
    EveryStructHasItsFields(cx, out, 0);
    WrittenHaveKeys(defs[root.id].selectionSet);
    assert ReadsAs(cx.schema, cx.a, RootSelections(cx, root).0, defs[root.id]);
    if !Lone(cx, RootSelections(cx, root).0) {
      KeysOfSet(cx, true, out, 0);
    }
  }

  // ----- Fields of fields -----

  function Children(t: Tree): seq<Tree> {
    match t
    case TField(_, _, children) => children
    case TInline(_, children) => children
    case _ => []
  }

  /** The tree is one of these, or below one of them. */
  predicate Occurs(t: Tree, ts: seq<Tree>)
    decreases ts
  {
    exists k | 0 <= k < |ts| :: ts[k] == t || (ts[k].TField? && Occurs(t, ts[k].children))
                                || (ts[k].TInline? && Occurs(t, ts[k].children))
  }

  lemma {:induction false} ChildOccurs(t: Tree, c: Tree, ts: seq<Tree>)
    requires Occurs(t, ts) && c in Children(t)
    ensures Occurs(c, ts)
    decreases ts
  {
    var k :| 0 <= k < |ts| && (ts[k] == t || (ts[k].TField? && Occurs(t, ts[k].children))
                               || (ts[k].TInline? && Occurs(t, ts[k].children)));
    if ts[k] == t {
      var i: nat :| i < |Children(t)| && Children(t)[i] == c;
      assert Occurs(c, Children(t));
    } else {
      ChildOccurs(t, c, ts[k].children);
    }
  }

  lemma {:induction false} ReadInAll(schema: Schema, a: Arena, typed: bool, ids: seq<nat>, id: nat)
    requires schema.Valid() && Shaped(schema, a, typed) && InTable(a, ids) && id in ids && id < |a.nodes|
    ensures Read(schema, a, typed, id) in ReadAll(schema, a, typed, ids)
    decreases |ids|
  {
    hide Shaped, Read;
    InitInTable(a, ids);
    if id != ids[|ids| - 1] {
      assert id in ids[..|ids| - 1];
      ReadInAll(schema, a, typed, ids[..|ids| - 1], id);
    }
  }

  /** Every selection in the table was written: it occurs among the selections of its fragment or operation. */
  lemma {:induction false} EverySelectionIsWritten(schema: Schema, a: Arena, k: nat)
    requires schema.Valid() && Shaped(schema, a, true) && k < |a.nodes| && Linked(a)
    ensures HasParent(a, RootOf(a, k)) && InTable(a, ChildrenOf(a, RootOf(a, k)))
    ensures Occurs(Read(schema, a, true, k), ReadAll(schema, a, true, ChildrenOf(a, RootOf(a, k))))
    decreases k
  {
    OneUp(a, k);
    ListedOnce(schema, a, true, k);
    assert LinkedDown(a, a.parents[k]);
    hide Shaped, Linked, RootOf, ChainTo, LinkedDown;
    var p := a.parents[k];
    ReadInAll(schema, a, true, ChildrenOf(a, p), k);
    if IsRoot(p) {
      var ts := ReadAll(schema, a, true, ChildrenOf(a, p));
      var i: nat :| i < |ts| && ts[i] == Read(schema, a, true, k);
    } else {
      EverySelectionIsWritten(schema, a, p.id);
      ChildrenBehind(schema, a, true, p.id);
      assert Children(Read(schema, a, true, p.id)) == ReadAll(schema, a, true, ChildrenOf(a, p));
      ChildOccurs(Read(schema, a, true, p.id), Read(schema, a, true, k),
                  ReadAll(schema, a, true, ChildrenOf(a, RootOf(a, k))));
    }
  }

  /**
   So does the struct of a field, however deep: it reads exactly the keys of the selections
   that were written under a field with its alias and name.
   */
  lemma {:induction false} FieldsReadWrittenKeys(cx: Context, doc: Ast.Document, out: Out, j: nat)
    requires Ready(cx) && Resolved(cx.schema, doc) == Success(cx.a) && UniquelyNamed(doc.definitions)
    requires Settled(cx, out, j) && out.origins[j].FromField? && !IsAlias(cx, out.origins[j])
    ensures var id := out.origins[j].id;
            && id < |cx.a.nodes| && cx.a.nodes[id].Field? && cx.a.nodes[id].fieldId < |cx.schema.fields|
            && exists d, children ::
                 && d in doc.definitions && !d.SelectionSet?
                 && Occurs(TField(cx.a.nodes[id].alias, cx.schema.fields[cx.a.nodes[id].fieldId].name, children),
                           WrittenAll(d.selectionSet))
                 && ReadFrom(Keyed(FieldsOn(out.fields, j)), Keys(children))
  {
    ResolvedReadsAsWritten(cx.schema, doc);
    var id := out.origins[j].id;
    var root := RootOf(cx.a, id);
    NodeAt(cx.schema, cx.a, id);
    hide Resolved, Shaped, Walkable, Linked, NodesInRange, SelectsNoInputs, RootsInRange, UniquelyNamed,
         Fragments, Operations, PartsOf, StructName, RootOf, Occurs, IsAlias;
    EverySelectionIsWritten(cx.schema, cx.a, id);
    KeysOfSet(cx, true, out, j);
    var defs := if root.OfFragment? then Fragments(doc.definitions) else Operations(doc.definitions);
    var d := defs[root.id];
    assert ReadsAs(cx.schema, cx.a, ChildrenOf(cx.a, root), d);
    DefinitionsAreListed(doc.definitions, d);
    var f, ids := cx.a.nodes[id].fieldId, cx.a.nodes[id].selectionSet;
    ChildrenBehind(cx.schema, cx.a, true, id);
    assert Read(cx.schema, cx.a, true, id) ==
           TField(cx.a.nodes[id].alias, cx.schema.fields[f].name, ReadAll(cx.schema, cx.a, true, ids));
  }

  lemma {:induction false} DefinitionsAreListed(defs: seq<Ast.Definition>, d: Ast.Definition)
    ensures d in Fragments(defs) || d in Operations(defs) ==> d in defs && !d.SelectionSet?
  {
    if defs != [] {
      DefinitionsAreListed(defs[..|defs| - 1], d);
    }
  }

  // ----- Names -----

  /** What a field or an inline fragment adds to the names of the structs below it. */
  function NamePart(cx: Context, k: nat): string
    requires Ready(cx) && k < |cx.a.nodes|
  {
    NodeAt(cx.schema, cx.a, k);
    match cx.a.nodes[k]
    case Field(alias, f, _) => cx.camel(KeyOf(alias, cx.schema.fields[f].name))
    case InlineFragment(t, _) => "On" + cx.camel(cx.schema.TypeName(t))
    case _ => ""
  }

  /** How the names of all structs below `p` begin: the root, then the response keys and the types on the way. */
  function NameBelow(cx: Context, p: Parent): string
    requires Ready(cx) && HasParent(cx.a, p)
    decreases if IsRoot(p) then 0 else p.id + 1
  {
    if p.OfFragment? then cx.camel(cx.a.fragments[p.id].name)
    else if p.OfOperation? then cx.camel(cx.a.operations[p.id].name)
    else
      OneUp(cx.a, p.id);
      NameBelow(cx, cx.a.parents[p.id]) + NamePart(cx, p.id)
  }

  lemma PartIsSegment(cx: Context, k: nat)
    requires Ready(cx) && k < |cx.a.nodes|
    ensures NodeInRange(cx.schema, |cx.a.fragments|, cx.a.nodes[k])
    ensures NamePart(cx, k) == Segment(cx.schema, cx.a, k, cx.camel)
  {
    NodeAt(cx.schema, cx.a, k);
  }

  lemma NameGoesOn(cx: Context, p: Parent)
    requires Ready(cx) && HasParent(cx.a, p) && !IsRoot(p)
    ensures p.id < |cx.a.nodes| && LinksBack(cx.a, p.id) && NodesInRange(cx.schema, cx.a)
    ensures NameBelow(cx, p) ==
            NameBelow(cx, cx.a.parents[p.id]) + Segment(cx.schema, cx.a, p.id, cx.camel)
  {
    OneUp(cx.a, p.id);
    PartIsSegment(cx, p.id);
    hide Segment, NamePart, Walkable;
  }

  /** The name that the chain of selections down to `k` spells. */
  function Spelled(cx: Context, k: nat): string
    requires Ready(cx) && k < |cx.a.nodes|
  {
    RootSegment(cx.a, RootOf(cx.a, k), cx.camel) + Segments(cx.schema, cx.a, ChainTo(cx.a, k), cx.camel)
  }

  lemma SegmentsInTurn(schema: Schema, a: Arena, ids: seq<nat>, k: nat, camel: string -> string)
    requires NodesInRange(schema, a) && InNodes(a, ids) && k < |a.nodes|
    ensures Segments(schema, a, ids + [k], camel) == Segments(schema, a, ids, camel) + Segment(schema, a, k, camel)
  {
    hide Segment;
    assert (ids + [k])[..|ids|] == ids;
  }

  lemma SpelledInTurn(cx: Context, k: nat)
    requires Ready(cx) && k < |cx.a.nodes|
    ensures LinksBack(cx.a, k) && NodesInRange(cx.schema, cx.a)
    ensures var up := cx.a.parents[k];
            Spelled(cx, k) ==
            (if IsRoot(up) then RootSegment(cx.a, up, cx.camel) else Spelled(cx, up.id))
            + Segment(cx.schema, cx.a, k, cx.camel)
  {
    OneUp(cx.a, k);
    assert Linked(cx.a) && NodesInRange(cx.schema, cx.a);
    hide Ready, Linked, NodesInRange, HasParent, Segment, Segments, RootSegment, ChainTo, RootOf;
    var up := cx.a.parents[k];
    var init := if IsRoot(up) then [] else ChainTo(cx.a, up.id);
    SegmentsInTurn(cx.schema, cx.a, init, k, cx.camel);
    var root, before := RootSegment(cx.a, RootOf(cx.a, k), cx.camel), Segments(cx.schema, cx.a, init, cx.camel);
    var own := Segment(cx.schema, cx.a, k, cx.camel);
    if IsRoot(up) {
      assert init + [k] == [k];
      NoSegments(cx.schema, cx.a, cx.camel);
    }
    assert Spelled(cx, k) == root + (before + own);
    Regrouped(root, before, own);
  }

  lemma NoSegments(schema: Schema, a: Arena, camel: string -> string)
    requires NodesInRange(schema, a)
    ensures Segments(schema, a, [], camel) == ""
  {
  }

  lemma {:induction false} WayIsNamed(cx: Context, p: Parent)
    requires Ready(cx) && HasParent(cx.a, p) && !IsRoot(p)
    ensures NameBelow(cx, p) == Spelled(cx, p.id)
    decreases p.id
  {
    NameGoesOn(cx, p);
    SpelledInTurn(cx, p.id);
    var up := cx.a.parents[p.id];
    hide Segment, NameBelow, Spelled, RootSegment, Ready;
    if IsRoot(up) {
      RootIsNamed(cx, up);
    } else {
      WayIsNamed(cx, up);
    }
  }

  lemma RootIsNamed(cx: Context, root: Parent)
    requires Ready(cx) && IsRoot(root) && HasParent(cx.a, root)
    ensures NameBelow(cx, root) == RootSegment(cx.a, root, cx.camel)
  {
  }

  lemma FieldIsNamed(cx: Context, k: nat)
    requires Ready(cx) && k < |cx.a.nodes| && cx.a.nodes[k].Field?
    ensures PathName(cx, k) == NameBelow(cx, OfField(k))
  {
    WayIsNamed(cx, OfField(k));
    hide NameBelow, ChainTo, RootOf, Segments, RootSegment;
  }

  lemma PlaceIsNamed(cx: Context, k: nat)
    requires Ready(cx) && k < |cx.a.nodes| && !cx.a.nodes[k].Field? && !cx.a.nodes[k].Typename?
    ensures Linked(cx.a) && LinksBack(cx.a, k) && PathName(cx, k) == NameBelow(cx, cx.a.parents[k])
  {
    OneUp(cx.a, k);
    var chain, up := ChainTo(cx.a, k), cx.a.parents[k];
    hide NameBelow, ChainTo, RootOf, Walkable;
    if IsRoot(up) {
      assert chain[..|chain| - 1] == [];
      RootIsNamed(cx, up);
    } else {
      assert chain[..|chain| - 1] == ChainTo(cx.a, up.id);
      WayIsNamed(cx, up);
    }
  }

  /**
   The struct for a fragment or an operation has its name, one for a field that of what is below
   the field, and one for a variant that of the place of the selections on it and of its type.
   */
  lemma StructsAreNamed(cx: Context, out: Out, j: nat)
    requires Ready(cx) && Settled(cx, out, j)
    ensures var o, name := out.origins[j], out.types[j];
            && (o.FromRoot? && o.root.OfFragment? ==>
                  o.root.id < |cx.a.fragments| && name == cx.a.fragments[o.root.id].name)
            && (o.FromRoot? && o.root.OfOperation? ==>
                  o.root.id < |cx.a.operations| && name == cx.a.operations[o.root.id].name)
            && (o.FromField? ==> HasParent(cx.a, OfField(o.id)) && name == NameBelow(cx, OfField(o.id)))
            && (o.FromVariant? ==>
                  && o.selections != [] && o.selections[0] < |cx.a.nodes| && cx.schema.Has(o.on)
                  && (!cx.a.nodes[o.selections[0]].Field? ==>
                        && Linked(cx.a) && LinksBack(cx.a, o.selections[0])
                        && name == NameBelow(cx, cx.a.parents[o.selections[0]]) + "On" + cx.schema.TypeName(o.on)))
  {
    var o := out.origins[j];
    if o.FromField? {
      FieldIsNamed(cx, o.id);
    } else if o.FromVariant? && !cx.a.nodes[o.selections[0]].Field? {
      PlaceIsNamed(cx, o.selections[0]);
    }
  }
}
