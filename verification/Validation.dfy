/** The checks at the end of `resolve`: type conditions, and `__typename` on unions and interfaces. */
module Validation {
  import opened Wrappers
  import Ast
  import opened Schemas
  import opened Arenas
  import opened Resolver
  import opened ArenaShape
  import opened Resolution
  import opened ResolvedDocuments

  // ----- Type conditions -----

  /** The type a spread or an inline fragment selects on. */
  function SelectedType(a: Arena, node: Node): Option<TypeId>
    requires node.FragmentSpread? ==> node.fragmentId < |a.fragments|
  {
    match node
    case FragmentSpread(f) => Some(a.fragments[f].on)
    case InlineFragment(t, _) => Some(t)
    case _ => None
  }

  /** `validate_type_conditions` for one selection. */
  predicate TypeConditionHolds(schema: Schema, a: Arena, k: nat)
    requires schema.Valid() && RootsInRange(schema, a) && k < |a.nodes| == |a.parents|
    requires KnownParent(schema, a, a.parents[k]) && NodeInRange(schema, |a.fragments|, a.nodes[k])
  {
    var selected := SelectedType(a, a.nodes[k]);
    selected.Some? ==>
      var parent := TypeOfParent(schema, a, a.parents[k]);
      parent == selected.value ||
      match parent
      case UnionId(u) => selected.value in schema.unions[u].variants
      case InterfaceId(i) =>
        && selected.value.ObjectId? && selected.value.id < |schema.objects|
        && i in schema.objects[selected.value.id].implementsInterfaces
      case _ => true
  }

  ghost predicate AllKnown(schema: Schema, a: Arena)
    requires schema.Valid()
  {
    && RootsInRange(schema, a) && |a.nodes| == |a.parents|
    && forall k | 0 <= k < |a.nodes| ::
         KnownParent(schema, a, a.parents[k]) && NodeInRange(schema, |a.fragments|, a.nodes[k])
  }

  /** Every selection has a type condition that holds, or none. */
  ghost predicate ConditionsHold(schema: Schema, a: Arena)
    requires schema.Valid()
  {
    AllKnown(schema, a) && forall k | 0 <= k < |a.nodes| :: TypeConditionHolds(schema, a, k)
  }

  /** A selection with the type condition `s` may stand under a parent of type `t`. */
  predicate MaySelect(schema: Schema, t: TypeId, s: TypeId)
    requires schema.Has(t)
  {
    t == s || (t.UnionId? || t.InterfaceId? ==> s in schema.PossibleTypes(t))
  }

  /**
   The type conditions hold exactly when every inline fragment and every spread is on the type
   its parent link denotes or, under a union or an interface, on one of its possible types;
   under any other type they may be on anything.
   */
  lemma ConditionsHoldExactlyWhen(schema: Schema, a: Arena)
    requires schema.Valid() && AllKnown(schema, a)
    ensures ConditionsHold(schema, a) <==>
            forall k | 0 <= k < |a.nodes| ::
              var t := TypeOfParent(schema, a, a.parents[k]);
              match a.nodes[k]
              case InlineFragment(s, _) => MaySelect(schema, t, s)
              case FragmentSpread(f) => MaySelect(schema, t, a.fragments[f].on)
              case _ => true
  {
    forall k | 0 <= k < |a.nodes|
      ensures TypeConditionHolds(schema, a, k) <==>
                var t := TypeOfParent(schema, a, a.parents[k]);
                match a.nodes[k]
                case InlineFragment(s, _) => MaySelect(schema, t, s)
                case FragmentSpread(f) => MaySelect(schema, t, a.fragments[f].on)
                case _ => true
    {
      var t := TypeOfParent(schema, a, a.parents[k]);
      if t.InterfaceId? {
        assert forall s :: s in schema.PossibleTypes(t) <==>
          s.ObjectId? && s.id < |schema.objects| && t.id in schema.objects[s.id].implementsInterfaces;
      }
    }
  }

  /** The loop over all selections in `resolve`. */
  method ValidateTypeConditions(schema: Schema, a: Arena) returns (r: Result<(), ResolveError>)
    requires schema.Valid() && AllKnown(schema, a)
    ensures r == if ConditionsHold(schema, a) then Success(()) else Failure(InvalidSpread)
  {
    for k := 0 to |a.nodes|
      invariant forall i | 0 <= i < k :: TypeConditionHolds(schema, a, i)
    {
      if !TypeConditionHolds(schema, a, k) {
        return Failure(InvalidSpread);
      }
    }
    return Success(());
  }

  lemma ShapedIsKnown(schema: Schema, a: Arena, typed: bool)
    requires schema.Valid() && Shaped(schema, a, typed)
    ensures AllKnown(schema, a)
  {
    hide Fits;
    forall k | 0 <= k < |a.nodes|
      ensures KnownParent(schema, a, a.parents[k]) && NodeInRange(schema, |a.fragments|, a.nodes[k])
    {
      assert LinkedUp(schema, a, k, typed);
    }
  }

  /**
   What a successful `resolve` of a document with unique names means for one selection, with
   `t` the type its parent link denotes.  A field belongs to `t`; what has a leaf type has no
   selections; under a union there is no field but `__typename`; and a spread or inline
   fragment under a union or interface is on `t` itself or on one of its possible types
   (section 5.5.2.3 of the GraphQL specification, June 2018).
   */
  lemma EverySelectionFits(schema: Schema, doc: Ast.Document, k: nat)
    requires schema.Valid() && Resolved(schema, doc).Success? && UniquelyNamed(doc.definitions)
    requires ConditionsHold(schema, Resolved(schema, doc).value) && k < |Resolved(schema, doc).value.nodes|
    ensures var a := Resolved(schema, doc).value;
            var t, node := TypeOfParent(schema, a, a.parents[k]), a.nodes[k];
            && schema.IsComposite(t)
            && (node.Field? ==> !t.UnionId? && node.fieldId in schema.FieldsOf(t))
            && (HasChildren(node) && !schema.IsComposite(TypeUnder(schema, node)) ==> node.selectionSet == [])
            && (t.UnionId? || t.InterfaceId? ==>
                  forall s | SelectedType(a, node) == Some(s) :: s == t || s in schema.PossibleTypes(t))
  {
    hide Resolved;
    var a := Resolved(schema, doc).value;
    ResolvedReadsAsWritten(schema, doc);
    assert LinkedUp(schema, a, k, true);
    assert TypeConditionHolds(schema, a, k);
  }

  // ----- `__typename` -----

  /**
   `selection_set_contains_type_name`: through spreads of fragments on the same type.  The
   original has no bound on these; None means that `fuel` spreads were not enough.
   */
  function ContainsTypename(a: Arena, t: TypeId, ids: seq<nat>, fuel: nat): Option<bool>
    requires Readable(a) && forall c | c in ids :: c < |a.nodes|
    decreases fuel, |ids|
  {
    if ids == [] then Some(false)
    else
      assert ids[0] in ids && forall c | c in ids[1..] :: c in ids;
      match a.nodes[ids[0]]
      case Typename => Some(true)
      case FragmentSpread(f) =>
        assert NodeKnown(a, a.nodes[ids[0]]);
        if a.fragments[f].on != t then ContainsTypename(a, t, ids[1..], fuel)
        else if fuel == 0 then None
        else
          var inner := ContainsTypename(a, t, a.fragments[f].selectionSet, fuel - 1);
          if inner == Some(false) then ContainsTypename(a, t, ids[1..], fuel) else inner
      case _ => ContainsTypename(a, t, ids[1..], fuel)
  }

  predicate NodeKnown(a: Arena, node: Node) {
    node.FragmentSpread? ==> node.fragmentId < |a.fragments|
  }

  predicate Readable(a: Arena) {
    && (forall k | 0 <= k < |a.nodes| :: NodeKnown(a, a.nodes[k]))
    && (forall f | 0 <= f < |a.fragments| :: forall c | c in a.fragments[f].selectionSet :: c < |a.nodes|)
  }

  /** Types with variants: `__typename` must be among the selections on them. */
  predicate NeedsTypename(t: TypeId) {
    t.InterfaceId? || t.UnionId?
  }

  /** The answer for fragment `f`. */
  function FragmentAnswer(a: Arena, f: nat, fuel: nat): Option<bool>
    requires Readable(a) && f < |a.fragments|
  {
    if NeedsTypename(a.fragments[f].on) then ContainsTypename(a, a.fragments[f].on, a.fragments[f].selectionSet, fuel)
    else Some(true)
  }

  /** The answer for selection `k`, if it is a field. */
  function FieldAnswer(schema: Schema, a: Arena, k: nat, fuel: nat): Option<bool>
    requires Readable(a) && FieldsKnown(schema, a) && k < |a.nodes|
  {
    var node := a.nodes[k];
    if node.Field? && NeedsTypename(schema.fields[node.fieldId].fieldType.id) then
      ContainsTypename(a, schema.fields[node.fieldId].fieldType.id, node.selectionSet, fuel)
    else Some(true)
  }

  predicate FieldsKnown(schema: Schema, a: Arena) {
    forall k | 0 <= k < |a.nodes| && a.nodes[k].Field? ::
      a.nodes[k].fieldId < |schema.fields| && forall c | c in a.nodes[k].selectionSet :: c < |a.nodes|
  }

  /** All answers are yes. */
  predicate TypenamesPresent(schema: Schema, a: Arena, fuel: nat) {
    && Readable(a) && FieldsKnown(schema, a)
    && (forall f | 0 <= f < |a.fragments| :: FragmentAnswer(a, f, fuel) == Some(true))
    && (forall k | 0 <= k < |a.nodes| :: FieldAnswer(schema, a, k, fuel) == Some(true))
  }

  /** The answers of all searches, in the order in which they are made. */
  function Answers(schema: Schema, a: Arena, fuel: nat): seq<Option<bool>>
    requires Readable(a) && FieldsKnown(schema, a)
  {
    seq(|a.fragments|, f requires 0 <= f < |a.fragments| => FragmentAnswer(a, f, fuel))
    + seq(|a.nodes|, k requires 0 <= k < |a.nodes| => FieldAnswer(schema, a, k, fuel))
  }

  /** The first answer that is not yes, if there is one: nothing after it is looked at. */
  function Verdict(answers: seq<Option<bool>>): Option<bool> {
    if answers == [] then Some(true)
    else if answers[0] != Some(true) then answers[0]
    else Verdict(answers[1..])
  }

  lemma {:induction false} VerdictAt(answers: seq<Option<bool>>, n: nat)
    requires n <= |answers| && forall i | 0 <= i < n :: answers[i] == Some(true)
    requires n < |answers| ==> answers[n] != Some(true)
    ensures Verdict(answers) == if n < |answers| then answers[n] else Some(true)
  {
    if n > 0 {
      VerdictAt(answers[1..], n - 1);
    }
  }

  /** What `validate_typename_presence` returns for a verdict, None standing for no return. */
  function PresenceResult(verdict: Option<bool>): Option<Result<(), ResolveError>> {
    match verdict
    case None => None
    case Some(true) => Some(Success(()))
    case Some(false) => Some(Failure(MissingTypename))
  }

  /** `validate_typename_presence`; None means that a search does not end within the fuel. */
  method ValidateTypenamePresence(schema: Schema, a: Arena, fuel: nat) returns (r: Option<Result<(), ResolveError>>)
    requires Readable(a) && FieldsKnown(schema, a)
    ensures r == PresenceResult(Verdict(Answers(schema, a, fuel)))
    ensures r == Some(Success(())) <==> TypenamesPresent(schema, a, fuel)
    ensures r.Some? && r.value.Failure? ==>
              && r.value.error == MissingTypename
              && ((exists f :: 0 <= f < |a.fragments| && FragmentAnswer(a, f, fuel) == Some(false))
                  || (exists k :: 0 <= k < |a.nodes| && FieldAnswer(schema, a, k, fuel) == Some(false)))
  {
    ghost var answers := Answers(schema, a, fuel);
    for f := 0 to |a.fragments|
      invariant forall i | 0 <= i < f :: FragmentAnswer(a, i, fuel) == Some(true)
    {
      if FragmentAnswer(a, f, fuel) != Some(true) {
        assert answers[f] == FragmentAnswer(a, f, fuel);
        VerdictAt(answers, f);
      }
      if FragmentAnswer(a, f, fuel).None? {
        return None;
      }
      if !FragmentAnswer(a, f, fuel).value {
        assert FragmentAnswer(a, f, fuel) == Some(false);
        return Some(Failure(MissingTypename));
      }
    }
    for k := 0 to |a.nodes|
      invariant forall i | 0 <= i < k :: FieldAnswer(schema, a, i, fuel) == Some(true)
    {
      if FieldAnswer(schema, a, k, fuel) != Some(true) {
        assert answers[|a.fragments| + k] == FieldAnswer(schema, a, k, fuel);
        VerdictAt(answers, |a.fragments| + k);
      }
      if FieldAnswer(schema, a, k, fuel).None? {
        return None;
      }
      if !FieldAnswer(schema, a, k, fuel).value {
        assert FieldAnswer(schema, a, k, fuel) == Some(false);
        return Some(Failure(MissingTypename));
      }
    }
    VerdictAt(answers, |answers|);
    return Some(Success(()));
  }

  lemma ShapedIsReadable(schema: Schema, a: Arena, typed: bool)
    requires schema.Valid() && Shaped(schema, a, typed)
    ensures Readable(a) && FieldsKnown(schema, a)
  {
    hide Fits;
    forall k | 0 <= k < |a.nodes|
      ensures NodeKnown(a, a.nodes[k])
      ensures a.nodes[k].Field? ==>
                a.nodes[k].fieldId < |schema.fields| && forall c | c in a.nodes[k].selectionSet :: c < |a.nodes|
    {
      assert LinkedUp(schema, a, k, typed);
      assert a.nodes[k].Field? ==> LinkedDown(a, OfField(k));
    }
    forall f, c | 0 <= f < |a.fragments| && c in a.fragments[f].selectionSet ensures c < |a.nodes| {
      assert LinkedDown(a, OfFragment(f));
    }
  }

  /**
   All of `resolve`: what the document makes it return, in every case.  The first search for
   `__typename` that does not say yes decides, then the type conditions; only if all hold
   is the query returned.  None means that a search does not end within the fuel
   (`TypenameSearches.SearchEndsExactlyWhen`).
   */
  method ResolveAndValidate(schema: Schema, doc: Ast.Document, fuel: nat)
    returns (r: Option<Result<Query, ResolveError>>)
    requires schema.Valid()
    ensures r.Some? && r.value.Success? ==> fresh(r.value.value) && r.value.value.Valid()
    ensures match Resolved(schema, doc)
            case Failure(e) => r == Some(Failure(e))
            case Success(a) =>
              && Readable(a) && FieldsKnown(schema, a)
              && match Verdict(Answers(schema, a, fuel))
                 case None => r == None
                 case Some(false) => r == Some(Failure(MissingTypename))
                 case Some(true) =>
                   && TypenamesPresent(schema, a, fuel)
                   && if ConditionsHold(schema, a) then r.Some? && r.value.Success? && r.value.value.Abs() == a
                      else r == Some(Failure(InvalidSpread))
  {
    hide Resolved, Shaped, AllKnown, Readable, FieldsKnown, Answers, Verdict, TypenamesPresent, ConditionsHold,
         UniquelyNamed;
    var resolved := Resolve(schema, doc);
    if resolved.Failure? {
      return Some(Failure(resolved.error));
    }
    var q := resolved.value;
    var parents := ParentList(q.selectionParentIdx, |q.selections|);
    var a := Arena(q.fragments, q.operations, q.selections, parents, q.variables);
    ResolvedQueriesAreShaped(schema, doc, false);
    ShapedIsReadable(schema, a, false);
    ShapedIsKnown(schema, a, false);
    var present := ValidateTypenamePresence(schema, a, fuel);
    if present.None? {
      return None;
    }
    if present.value != Success(()) {
      return Some(Failure(MissingTypename));
    }
    var conditions := ValidateTypeConditions(schema, a);
    return Some(if conditions.Failure? then Failure(conditions.error) else Success(q));
  }

  /** The spreads lead, each on type `t` and listed in the one before, from `ids` to a `__typename`. */
  predicate LeadsToTypename(a: Arena, t: TypeId, ids: seq<nat>, spreads: seq<nat>)
    requires Readable(a) && forall c | c in ids :: c < |a.nodes|
    decreases |spreads|
  {
    if spreads == [] then exists c | c in ids :: a.nodes[c].Typename?
    else
      var f := spreads[0];
      && f < |a.fragments| && a.fragments[f].on == t
      && (exists c | c in ids :: a.nodes[c] == FragmentSpread(f))
      && LeadsToTypename(a, t, a.fragments[f].selectionSet, spreads[1..])
  }

  /** An answer is right: yes exactly when some chain of spreads on the type leads to `__typename`. */
  lemma {:induction false} TypenameAnswerIsRight(a: Arena, t: TypeId, ids: seq<nat>, fuel: nat)
    requires Readable(a) && forall c | c in ids :: c < |a.nodes|
    ensures var r := ContainsTypename(a, t, ids, fuel);
            && (r == Some(true) ==> exists spreads :: LeadsToTypename(a, t, ids, spreads))
            && (r == Some(false) ==> forall spreads :: !LeadsToTypename(a, t, ids, spreads))
    decreases fuel, |ids|
  {
    if ids == [] {
      forall spreads ensures !LeadsToTypename(a, t, ids, spreads) {
      }
    } else {
      assert ids[0] in ids && forall c | c in ids[1..] :: c in ids;
      var node := a.nodes[ids[0]];
      assert NodeKnown(a, node);
      if node.Typename? {
        assert LeadsToTypename(a, t, ids, []);
      } else {
        TypenameAnswerIsRight(a, t, ids[1..], fuel);
        forall spreads ensures LeadsToTypename(a, t, ids, spreads) <==>
          LeadsToTypename(a, t, ids[1..], spreads) ||
          (&& spreads != [] && node == FragmentSpread(spreads[0]) && spreads[0] < |a.fragments|
           && a.fragments[spreads[0]].on == t
           && LeadsToTypename(a, t, a.fragments[spreads[0]].selectionSet, spreads[1..]))
        {
          LeadsThroughOne(a, t, ids, spreads);
        }
        if node.FragmentSpread? && a.fragments[node.fragmentId].on == t && fuel > 0 {
          var f := node.fragmentId;
          TypenameAnswerIsRight(a, t, a.fragments[f].selectionSet, fuel - 1);
          if ContainsTypename(a, t, a.fragments[f].selectionSet, fuel - 1) == Some(true) {
            var spreads :| LeadsToTypename(a, t, a.fragments[f].selectionSet, spreads);
            assert ([f] + spreads)[1..] == spreads;
            assert LeadsToTypename(a, t, ids, [f] + spreads);
          }
        }
      }
    }
  }

  lemma LeadsThroughOne(a: Arena, t: TypeId, ids: seq<nat>, spreads: seq<nat>)
    requires Readable(a) && (forall c | c in ids :: c < |a.nodes|) && ids != []
    requires ids[0] < |a.nodes| && !a.nodes[ids[0]].Typename?
    ensures forall c | c in ids[1..] :: c < |a.nodes|
    ensures LeadsToTypename(a, t, ids, spreads) <==>
      LeadsToTypename(a, t, ids[1..], spreads) ||
      (&& spreads != [] && a.nodes[ids[0]] == FragmentSpread(spreads[0]) && spreads[0] < |a.fragments|
       && a.fragments[spreads[0]].on == t
       && LeadsToTypename(a, t, a.fragments[spreads[0]].selectionSet, spreads[1..]))
  {
    assert forall c | c in ids :: c == ids[0] || c in ids[1..];
    assert forall c | c in ids[1..] :: c in ids;
  }

  /** The selections `ids` on type `t` lead to `__typename`, if `t` is a union or an interface. */
  ghost predicate HasTypename(a: Arena, t: TypeId, ids: seq<nat>)
    requires Readable(a) && forall c | c in ids :: c < |a.nodes|
  {
    t.UnionId? || t.InterfaceId? ==> exists spreads :: LeadsToTypename(a, t, ids, spreads)
  }

  ghost predicate FragmentHasTypename(a: Arena, f: nat)
    requires Readable(a) && f < |a.fragments|
  {
    HasTypename(a, a.fragments[f].on, a.fragments[f].selectionSet)
  }

  ghost predicate FieldHasTypename(schema: Schema, a: Arena, k: nat)
    requires Readable(a) && FieldsKnown(schema, a) && k < |a.nodes|
  {
    a.nodes[k].Field? ==> HasTypename(a, schema.fields[a.nodes[k].fieldId].fieldType.id, a.nodes[k].selectionSet)
  }

  /**
   When the searches for `__typename` end, they say yes exactly if every fragment and every
   field on a union or an interface leads to one.
   */
  lemma VerdictIsRight(schema: Schema, a: Arena, fuel: nat)
    requires Readable(a) && FieldsKnown(schema, a) && Verdict(Answers(schema, a, fuel)).Some?
    ensures Verdict(Answers(schema, a, fuel)) == Some(true) <==>
              && (forall f | 0 <= f < |a.fragments| :: FragmentHasTypename(a, f))
              && (forall k | 0 <= k < |a.nodes| :: FieldHasTypename(schema, a, k))
  {
    var answers := Answers(schema, a, fuel);
    forall f | 0 <= f < |a.fragments|
      ensures FragmentAnswer(a, f, fuel) == Some(true) ==> FragmentHasTypename(a, f)
      ensures FragmentAnswer(a, f, fuel) == Some(false) ==> !FragmentHasTypename(a, f)
    {
      TypenameAnswerIsRight(a, a.fragments[f].on, a.fragments[f].selectionSet, fuel);
    }
    forall k | 0 <= k < |a.nodes|
      ensures FieldAnswer(schema, a, k, fuel) == Some(true) ==> FieldHasTypename(schema, a, k)
      ensures FieldAnswer(schema, a, k, fuel) == Some(false) ==> !FieldHasTypename(schema, a, k)
    {
      if a.nodes[k].Field? {
        TypenameAnswerIsRight(a, schema.fields[a.nodes[k].fieldId].fieldType.id, a.nodes[k].selectionSet, fuel);
      }
    }
    hide FragmentAnswer, FieldAnswer, FragmentHasTypename, FieldHasTypename, Verdict;
    var n := FirstOther(answers);
    VerdictAt(answers, n);
    assert forall f | 0 <= f < |a.fragments| :: answers[f] == FragmentAnswer(a, f, fuel);
    assert forall k | 0 <= k < |a.nodes| :: answers[|a.fragments| + k] == FieldAnswer(schema, a, k, fuel);
    if n < |answers| {
      assert answers[n] == Verdict(answers) && !answers[n].value;
      if n < |a.fragments| {
        assert FragmentAnswer(a, n, fuel) == Some(false);
      } else {
        assert FieldAnswer(schema, a, n - |a.fragments|, fuel) == answers[|a.fragments| + (n - |a.fragments|)];
      }
    }
  }

  /** The first answer that is not yes. */
  lemma {:induction false} FirstOther(answers: seq<Option<bool>>) returns (n: nat)
    ensures n <= |answers| && (forall i | 0 <= i < n :: answers[i] == Some(true))
    ensures n < |answers| ==> answers[n] != Some(true)
  {
    n := 0;
    while n < |answers| && answers[n] == Some(true)
      invariant n <= |answers| && forall i | 0 <= i < n :: answers[i] == Some(true)
    {
      n := n + 1;
    }
  }
}
