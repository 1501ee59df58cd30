/**
 The boxing of input struct fields: `contains_type_without_indirection` of
 crates/codegen/src/schema.rs and its use in crates/codegen/src/codegen/inputs.rs.
 */
module InputCycles {
  import opened Wrappers
  import opened Schemas
  import opened TypeQualifiers
  import opened Pigeonholes

  /** The table of input objects, by id. */
  type Inputs = seq<StoredInput>

  /** The id of the field's type if that is an input object itself. */
  function InputOf(f: InputField): Option<nat> {
    if f.fieldType.id.InputId? then Some(f.fieldType.id.id) else None
  }

  predicate Valid(inputs: Inputs) {
    forall a, k | 0 <= a < |inputs| && 0 <= k < |inputs[a].fields| ::
      InputOf(inputs[a].fields[k]).Some? ==> InputOf(inputs[a].fields[k]).value < |inputs|
  }

  /** The inputs of a schema that can be looked up throughout. */
  lemma ValidSchemasHaveValidInputs(schema: Schema)
    requires schema.IdsInRange()
    ensures Valid(schema.inputs)
  {
    forall a, k | 0 <= a < |schema.inputs| && 0 <= k < |schema.inputs[a].fields|
      ensures InputOf(schema.inputs[a].fields[k]).Some? ==> InputOf(schema.inputs[a].fields[k]).value < |schema.inputs|
    {
      assert schema.Has(schema.inputs[a].fields[k].fieldType.id);
    }
  }

  predicate IsIndirected(f: InputField) {
    List in f.fieldType.qualifiers
  }

  // ----- The search -----

  /**
   Whether some of the fields contains `target`, field by field and stopping at the first
   that does.  The search has no bound of its own: None means that it needs calls nested
   deeper than `fuel`.
   */
  function AnyContains(inputs: Inputs, fields: seq<InputField>, target: nat, fuel: nat): Option<bool>
    requires Valid(inputs) && forall f | f in fields :: InputOf(f).Some? ==> InputOf(f).value < |inputs|
    decreases fuel, |fields|
  {
    if fields == [] then Some(false)
    else
      match FieldContains(inputs, fields[0], target, fuel)
      case None => None
      case Some(true) => Some(true)
      case Some(false) => AnyContains(inputs, fields[1..], target, fuel)
  }

  function FieldContains(inputs: Inputs, f: InputField, target: nat, fuel: nat): Option<bool>
    requires Valid(inputs) && (InputOf(f).Some? ==> InputOf(f).value < |inputs|)
    decreases fuel, 0
  {
    if IsIndirected(f) || InputOf(f).None? then Some(false)
    else if InputOf(f).value == target then Some(true)
    else if fuel == 0 then None
    else AnyContains(inputs, inputs[InputOf(f).value].fields, target, fuel - 1)
  }

  /** `input_is_recursive_without_indirection`. */
  function IsRecursive(inputs: Inputs, id: nat, fuel: nat): Option<bool>
    requires Valid(inputs) && id < |inputs|
  {
    AnyContains(inputs, inputs[id].fields, id, fuel)
  }

  // ----- Containment without indirection, as a graph -----

  predicate FieldTo(f: InputField, b: nat) {
    !IsIndirected(f) && InputOf(f) == Some(b)
  }

  predicate Edge(inputs: Inputs, a: nat, b: nat) {
    && a < |inputs| && b < |inputs|
    && exists k :: 0 <= k < |inputs[a].fields| && FieldTo(inputs[a].fields[k], b)
  }

  predicate Walk(inputs: Inputs, p: seq<nat>) {
    forall i | 0 <= i < |p| - 1 :: Edge(inputs, p[i], p[i + 1])
  }

  ghost predicate Reaches(inputs: Inputs, a: nat, b: nat) {
    exists p: seq<nat> :: |p| >= 2 && Walk(inputs, p) && p[0] == a && p[|p| - 1] == b
  }

  ghost predicate OnCycle(inputs: Inputs, a: nat) {
    Reaches(inputs, a, a)
  }

  /** A walk from `a` that visits `target` nowhere after its start. */
  predicate Avoids(inputs: Inputs, p: seq<nat>, a: nat, target: nat) {
    |p| >= 1 && p[0] == a && Walk(inputs, p) && forall i | 0 < i < |p| :: p[i] != target
  }

  // ----- Answers are right -----

  /** The first `n` fields are all answered with no. */
  predicate NoneUpTo(inputs: Inputs, fields: seq<InputField>, target: nat, fuel: nat, n: nat)
    requires Valid(inputs) && forall f | f in fields :: InputOf(f).Some? ==> InputOf(f).value < |inputs|
    requires n <= |fields|
  {
    forall k | 0 <= k < n :: FieldContains(inputs, fields[k], target, fuel) == Some(false)
  }

  /** The answer about a list of fields is that about field `k`, the first not answered with no. */
  lemma {:induction false} FirstNotNo(inputs: Inputs, fields: seq<InputField>, target: nat, fuel: nat) returns (k: nat)
    requires Valid(inputs) && forall f | f in fields :: InputOf(f).Some? ==> InputOf(f).value < |inputs|
    ensures k <= |fields| && NoneUpTo(inputs, fields, target, fuel, k)
    ensures k < |fields| ==> FieldContains(inputs, fields[k], target, fuel) == AnyContains(inputs, fields, target, fuel)
    ensures k == |fields| <==> AnyContains(inputs, fields, target, fuel) == Some(false)
  {
    if fields == [] || FieldContains(inputs, fields[0], target, fuel) != Some(false) {
      k := 0;
    } else {
      var rest := FirstNotNo(inputs, fields[1..], target, fuel);
      assert forall i | 0 < i < |fields| :: fields[i] == fields[1..][i - 1];
      k := rest + 1;
    }
  }

  /** A positive answer comes with a walk to the target. */
  lemma {:induction false} YesHasWalk(inputs: Inputs, a: nat, target: nat, fuel: nat)
    requires Valid(inputs) && a < |inputs|
    requires AnyContains(inputs, inputs[a].fields, target, fuel) == Some(true)
    ensures Reaches(inputs, a, target)
    decreases fuel
  {
    var k := FirstNotNo(inputs, inputs[a].fields, target, fuel);
    var b := InputOf(inputs[a].fields[k]).value;
    assert FieldTo(inputs[a].fields[k], b);
    if b == target {
      assert Walk(inputs, [a, b]);
    } else {
      YesHasWalk(inputs, b, target, fuel - 1);
      var p: seq<nat> :| |p| >= 2 && Walk(inputs, p) && p[0] == b && p[|p| - 1] == target;
      WalkCons(inputs, a, p);
    }
  }

  lemma WalkCons(inputs: Inputs, a: nat, p: seq<nat>)
    requires p != [] && Walk(inputs, p) && Edge(inputs, a, p[0])
    ensures Walk(inputs, [a] + p)
  {
    assert forall i | 0 < i < |p| :: ([a] + p)[i] == p[i - 1];
  }

  lemma WalkTail(inputs: Inputs, p: seq<nat>)
    requires p != [] && Walk(inputs, p)
    ensures Walk(inputs, p[1..])
  {
    assert forall i | 0 <= i < |p| - 1 :: p[1..][i] == p[i + 1];
  }

  /** A negative answer: no walk from here reaches the target, and none is longer than the fuel. */
  lemma {:induction false} NoHasNoWalk(inputs: Inputs, a: nat, target: nat, fuel: nat, p: seq<nat>)
    requires Valid(inputs) && a < |inputs|
    requires AnyContains(inputs, inputs[a].fields, target, fuel) == Some(false)
    requires |p| >= 2 && Walk(inputs, p) && p[0] == a
    ensures p[|p| - 1] != target && |p| <= fuel + 1
    decreases fuel
  {
    var all := FirstNotNo(inputs, inputs[a].fields, target, fuel);
    assert Edge(inputs, p[0], p[1]);
    var k :| 0 <= k < |inputs[a].fields| && FieldTo(inputs[a].fields[k], p[1]);
    assert FieldContains(inputs, inputs[a].fields[k], target, fuel) == Some(false);
    if |p| > 2 {
      WalkTail(inputs, p);
      NoHasNoWalk(inputs, p[1], target, fuel - 1, p[1..]);
    }
  }

  /** Whenever the search answers, the answer is whether the input lies on an unindirected cycle. */
  lemma AnswersAreRight(inputs: Inputs, id: nat, fuel: nat)
    requires Valid(inputs) && id < |inputs| && IsRecursive(inputs, id, fuel).Some?
    ensures IsRecursive(inputs, id, fuel).value <==> OnCycle(inputs, id)
  {
    if IsRecursive(inputs, id, fuel) == Some(true) {
      YesHasWalk(inputs, id, id, fuel);
    } else if OnCycle(inputs, id) {
      var p: seq<nat> :| |p| >= 2 && Walk(inputs, p) && p[0] == id && p[|p| - 1] == id;
      NoHasNoWalk(inputs, id, id, fuel, p);
    }
  }

  // ----- When the search answers -----

  /** The field is of the target type or of a type that contains it, without indirection. */
  ghost predicate LeadsTo(inputs: Inputs, f: InputField, target: nat) {
    !IsIndirected(f) && InputOf(f).Some? && (InputOf(f).value == target || Reaches(inputs, InputOf(f).value, target))
  }

  /** None of the first `k` fields of `a` leads to the target. */
  ghost predicate NothingBefore(inputs: Inputs, a: nat, target: nat, k: nat)
    requires a < |inputs| && k <= |inputs[a].fields|
  {
    forall i | 0 <= i < k :: !LeadsTo(inputs, inputs[a].fields[i], target)
  }

  /**
   The search for `target` goes from `a` into `b`: some field of `a` contains `b`, which is
   not the target, and no field before it leads to the target, which would have settled the
   answer.
   */
  ghost predicate OpenStep(inputs: Inputs, target: nat, a: nat, b: nat) {
    && a < |inputs| && b < |inputs| && b != target
    && exists k :: 0 <= k < |inputs[a].fields| && FieldTo(inputs[a].fields[k], b) && NothingBefore(inputs, a, target, k)
  }

  ghost predicate OpenWalk(inputs: Inputs, target: nat, p: seq<nat>) {
    forall i | 0 <= i < |p| - 1 :: OpenStep(inputs, target, p[i], p[i + 1])
  }

  /** The search for `id` from its own fields can be led into a circle. */
  ghost predicate Lasso(inputs: Inputs, id: nat) {
    exists p: seq<nat>, i: nat, j: nat :: IsLasso(inputs, id, p, i, j)
  }

  ghost predicate IsLasso(inputs: Inputs, id: nat, p: seq<nat>, i: nat, j: nat) {
    p != [] && p[0] == id && OpenWalk(inputs, id, p) && 0 < i < j < |p| && p[i] == p[j]
  }

  /** Running out of fuel takes as long a walk of open steps. */
  lemma {:induction false} StuckHasWalk(inputs: Inputs, a: nat, target: nat, fuel: nat) returns (p: seq<nat>)
    requires Valid(inputs) && a < |inputs|
    requires AnyContains(inputs, inputs[a].fields, target, fuel) == None
    ensures |p| == fuel + 2 && p[0] == a && OpenWalk(inputs, target, p)
    decreases fuel
  {
    var fields := inputs[a].fields;
    var k := FirstNotNo(inputs, fields, target, fuel);
    NoMeansNothingBefore(inputs, a, target, fuel, k);
    var b := InputOf(fields[k]).value;
    assert FieldTo(fields[k], b) && OpenStep(inputs, target, a, b);
    if fuel == 0 {
      p := [a, b];
    } else {
      var q := StuckHasWalk(inputs, b, target, fuel - 1);
      p := [a] + q;
      assert forall i | 0 < i < |p| :: p[i] == q[i - 1];
    }
  }

  lemma NoMeansNothingBefore(inputs: Inputs, a: nat, target: nat, fuel: nat, k: nat)
    requires Valid(inputs) && a < |inputs| && k <= |inputs[a].fields|
    requires NoneUpTo(inputs, inputs[a].fields, target, fuel, k)
    ensures NothingBefore(inputs, a, target, k)
  {
    forall i | 0 <= i < k ensures !LeadsTo(inputs, inputs[a].fields[i], target) {
      assert FieldContains(inputs, inputs[a].fields[i], target, fuel) == Some(false);
      if LeadsTo(inputs, inputs[a].fields[i], target) {
        var c := InputOf(inputs[a].fields[i]).value;
        var p: seq<nat> :| |p| >= 2 && Walk(inputs, p) && p[0] == c && p[|p| - 1] == target;
        NoHasNoWalk(inputs, c, target, fuel - 1, p);
      }
    }
  }

  /** A search that answers has followed every open step, and answered there. */
  lemma AnsweredThrough(inputs: Inputs, target: nat, a: nat, b: nat, fuel: nat)
    requires Valid(inputs) && OpenStep(inputs, target, a, b)
    requires AnyContains(inputs, inputs[a].fields, target, fuel).Some?
    ensures fuel > 0 && AnyContains(inputs, inputs[b].fields, target, fuel - 1).Some?
  {
    var fields := inputs[a].fields;
    var k :| 0 <= k < |fields| && FieldTo(fields[k], b) && NothingBefore(inputs, a, target, k);
    var i := FirstNotNo(inputs, fields, target, fuel);
    if i < k {
      var r := FieldContains(inputs, fields[i], target, fuel);
      assert r.Some? && r != Some(false) && r.value;
      var c := InputOf(fields[i]).value;
      assert !LeadsTo(inputs, fields[i], target);
      YesHasWalk(inputs, c, target, fuel - 1);
    }
    assert FieldContains(inputs, fields[k], target, fuel).Some?;
  }

  lemma {:induction false} AnswersBoundOpenWalks(inputs: Inputs, target: nat, fuel: nat, p: seq<nat>)
    requires Valid(inputs) && p != [] && p[0] < |inputs| && OpenWalk(inputs, target, p)
    requires AnyContains(inputs, inputs[p[0]].fields, target, fuel).Some?
    ensures |p| <= fuel + 1
    decreases fuel
  {
    if |p| > 1 {
      assert OpenStep(inputs, target, p[0], p[1]);
      AnsweredThrough(inputs, target, p[0], p[1], fuel);
      assert forall i | 0 <= i < |p| - 1 :: p[1..][i] == p[i + 1];
      AnswersBoundOpenWalks(inputs, target, fuel - 1, p[1..]);
    }
  }

  lemma StuckMeansLasso(inputs: Inputs, id: nat)
    requires Valid(inputs) && id < |inputs| && IsRecursive(inputs, id, |inputs|).None?
    ensures Lasso(inputs, id)
  {
    var p := StuckHasWalk(inputs, id, id, |inputs|);
    var q := p[1..];
    forall i | 0 <= i < |q| ensures q[i] < |inputs| {
      assert OpenStep(inputs, id, p[i], p[i + 1]);
    }
    Pigeonhole(q, |inputs|);
    var i, j :| 0 <= i < j < |q| && q[i] == q[j];
    assert p[i + 1] == p[j + 1];
    assert IsLasso(inputs, id, p, i + 1, j + 1);
  }

  /** Going round a cycle at the end of a walk as often as it takes to make the walk long. */
  lemma {:induction false} Pump(inputs: Inputs, target: nat, p: seq<nat>, i: nat, n: nat) returns (q: seq<nat>)
    requires OpenWalk(inputs, target, p) && i < |p| - 1 && p[i] == p[|p| - 1]
    ensures OpenWalk(inputs, target, q) && |q| >= n && q != [] && q[0] == p[0]
    decreases n - |p|
  {
    if |p| >= n {
      q := p;
    } else {
      var r := p + p[i + 1..];
      forall k | 0 <= k < |r| - 1 ensures OpenStep(inputs, target, r[k], r[k + 1]) {
        if k < |p| - 1 {
          assert r[k] == p[k] && r[k + 1] == p[k + 1];
        } else {
          var back := k - (|p| - 1) + i;
          assert r[k] == p[back] && r[k + 1] == p[back + 1];
        }
      }
      q := Pump(inputs, target, r, i, n);
    }
  }

  /**
   For every input, on a cycle or not: the search answers exactly when it cannot be led into
   a circle, and then within nesting as deep as there are inputs.
   */
  lemma AnswersExactlyWhen(inputs: Inputs, id: nat)
    requires Valid(inputs) && id < |inputs|
    ensures (exists fuel :: IsRecursive(inputs, id, fuel).Some?) <==> !Lasso(inputs, id)
    ensures !Lasso(inputs, id) ==> IsRecursive(inputs, id, |inputs|).Some?
  {
    if Lasso(inputs, id) {
      forall fuel: nat ensures IsRecursive(inputs, id, fuel).None? {
        LassoNeverAnswers(inputs, id, fuel);
      }
    } else if IsRecursive(inputs, id, |inputs|).None? {
      StuckMeansLasso(inputs, id);
    }
  }

  lemma LassoNeverAnswers(inputs: Inputs, id: nat, fuel: nat)
    requires Valid(inputs) && id < |inputs| && Lasso(inputs, id)
    ensures IsRecursive(inputs, id, fuel).None?
  {
    var p: seq<nat>, i: nat, j: nat :| IsLasso(inputs, id, p, i, j);
    var long := Pump(inputs, id, p[..j + 1], i, fuel + 2);
    if IsRecursive(inputs, id, fuel).Some? {
      AnswersBoundOpenWalks(inputs, id, fuel, long);
    }
  }

  // ----- Two conditions without the order of fields -----

  /** Some cycle can be reached from `a` without passing through it. */
  ghost predicate CycleAround(inputs: Inputs, a: nat) {
    exists p: seq<nat>, i: nat, j: nat :: Avoids(inputs, p, a, a) && 0 < i < j < |p| && p[i] == p[j]
  }

  /** With no cycle around the start, the search answers, within nesting as deep as there are inputs. */
  lemma AnswersWithoutCycleAround(inputs: Inputs, id: nat)
    requires Valid(inputs) && id < |inputs| && !CycleAround(inputs, id)
    ensures IsRecursive(inputs, id, |inputs|).Some?
  {
    if Lasso(inputs, id) {
      var p: seq<nat>, i: nat, j: nat :| IsLasso(inputs, id, p, i, j);
      forall k | 0 < k < |p| ensures Edge(inputs, p[k - 1], p[k]) && p[k] != id {
        assert OpenStep(inputs, id, p[k - 1], p[k - 1 + 1]);
      }
      assert Avoids(inputs, p, id, id);
    }
    AnswersExactlyWhen(inputs, id);
  }

  /** With a cycle around a start that is on no cycle itself, the search never answers. */
  lemma NeverAnswersOtherwise(inputs: Inputs, id: nat, fuel: nat)
    requires Valid(inputs) && id < |inputs| && !OnCycle(inputs, id) && CycleAround(inputs, id)
    ensures IsRecursive(inputs, id, fuel).None?
  {
    var p: seq<nat>, i: nat, j: nat :| Avoids(inputs, p, id, id) && 0 < i < j < |p| && p[i] == p[j];
    forall k | 0 <= k < |p| - 1 ensures OpenStep(inputs, id, p[k], p[k + 1]) {
      OffCycleStepsAreOpen(inputs, id, p, k);
    }
    assert IsLasso(inputs, id, p, i, j);
    LassoNeverAnswers(inputs, id, fuel);
  }

  /** From a start on no cycle nothing leads back, so every step is open. */
  lemma OffCycleStepsAreOpen(inputs: Inputs, id: nat, p: seq<nat>, k: nat)
    requires Valid(inputs) && !OnCycle(inputs, id) && Avoids(inputs, p, id, id) && k < |p| - 1
    ensures OpenStep(inputs, id, p[k], p[k + 1])
  {
    assert Edge(inputs, p[k], p[k + 1]);
    var n :| 0 <= n < |inputs[p[k]].fields| && FieldTo(inputs[p[k]].fields[n], p[k + 1]);
    forall i | 0 <= i < n ensures !LeadsTo(inputs, inputs[p[k]].fields[i], id) {
      if LeadsTo(inputs, inputs[p[k]].fields[i], id) {
        var c := InputOf(inputs[p[k]].fields[i]).value;
        assert FieldTo(inputs[p[k]].fields[i], c) && Edge(inputs, p[k], c);
        WayBack(inputs, p[..k + 1], c);
      }
    }
  }

  /** A walk and then a way back to its start make a cycle. */
  lemma WayBack(inputs: Inputs, p: seq<nat>, c: nat)
    requires p != [] && Walk(inputs, p) && Edge(inputs, p[|p| - 1], c) && (c == p[0] || Reaches(inputs, c, p[0]))
    ensures OnCycle(inputs, p[0])
  {
    var back: seq<nat> := [c];
    if c != p[0] {
      back :| |back| >= 2 && Walk(inputs, back) && back[0] == c && back[|back| - 1] == p[0];
    }
    var round := p + back;
    forall m | 0 <= m < |round| - 1 ensures Edge(inputs, round[m], round[m + 1]) {
      if m >= |p| {
        assert round[m] == back[m - |p|] && round[m + 1] == back[m - |p| + 1];
      }
    }
    assert Walk(inputs, round);
  }

  // ----- Three small tables -----

  const TWO_INPUTS: Inputs := [
    StoredInput("A", [InputField("b", FieldType(InputId(1), []))]),
    StoredInput("B", [InputField("again", FieldType(InputId(1), []))])
  ]

  /** A itself is recursive here, but its first field comes to nothing. */
  const B_FIRST: Inputs := [
    StoredInput("A", [InputField("b", FieldType(InputId(1), [])), InputField("a", FieldType(InputId(0), []))]),
    StoredInput("B", [InputField("again", FieldType(InputId(1), []))])
  ]

  /** The same inputs with the fields of A the other way round. */
  const A_FIRST: Inputs := [
    StoredInput("A", [InputField("a", FieldType(InputId(0), [])), InputField("b", FieldType(InputId(1), []))]),
    StoredInput("B", [InputField("again", FieldType(InputId(1), []))])
  ]

  /** The search from A goes into B first, and there in a circle. */
  lemma IntoBAndRound(inputs: Inputs, fuel: nat)
    requires inputs == TWO_INPUTS || inputs == B_FIRST
    ensures Valid(inputs) && IsRecursive(inputs, 0, fuel) == None
  {
    var p: seq<nat> := [0, 1, 1];
    assert FieldTo(inputs[0].fields[0], 1) && FieldTo(inputs[1].fields[0], 1);
    assert NothingBefore(inputs, 0, 0, 0) && NothingBefore(inputs, 1, 0, 0);
    assert OpenStep(inputs, 0, 0, 1) && OpenStep(inputs, 0, 1, 1);
    assert IsLasso(inputs, 0, p, 1, 2);
    LassoNeverAnswers(inputs, 0, fuel);
  }

  /** An input with a field of a recursive type, but not recursive itself: the search does not end. */
  lemma SearchCanRunForever(fuel: nat)
    ensures IsRecursive(TWO_INPUTS, 0, fuel) == None
  {
    IntoBAndRound(TWO_INPUTS, fuel);
  }

  /**
   Nor need it end for a recursive input, which is the kind to be boxed: with the same two
   fields it never answers in one order, and answers at once in the other.
   */
  lemma OrderOfFieldsDecides(fuel: nat)
    ensures IsRecursive(B_FIRST, 0, fuel) == None && OnCycle(B_FIRST, 0)
    ensures IsRecursive(A_FIRST, 0, fuel) == Some(true)
  {
    IntoBAndRound(B_FIRST, fuel);
    assert FieldTo(B_FIRST[0].fields[1], 0) && Edge(B_FIRST, 0, 0);
    assert Walk(B_FIRST, [0, 0]);
    assert FieldContains(A_FIRST, A_FIRST[0].fields[0], 0, fuel) == Some(true);
  }

  // ----- The generated structs have finite size -----

  /**
   The struct of `a` holds the struct of `b` by value: some field of that type is neither a
   list nor boxed.  A field is boxed when the search says its input type is recursive.
   */
  predicate HoldsByValue(inputs: Inputs, fuel: nat, a: nat, b: nat)
    requires Valid(inputs)
  {
    && a < |inputs| && b < |inputs|
    && (exists k :: 0 <= k < |inputs[a].fields| && FieldTo(inputs[a].fields[k], b))
    && IsRecursive(inputs, b, fuel) != Some(true)
  }

  predicate ByValueWalk(inputs: Inputs, fuel: nat, p: seq<nat>)
    requires Valid(inputs)
  {
    forall i | 0 <= i < |p| - 1 :: HoldsByValue(inputs, fuel, p[i], p[i + 1])
  }

  /**
   No struct holds itself by value, however indirectly: a chain of structs each holding the
   next by value never meets one twice, so none is longer than there are structs.  The search
   need have answered only for the inputs that are held, which are those asked about.
   */
  lemma StructsHaveFiniteSize(inputs: Inputs, fuel: nat, p: seq<nat>)
    requires Valid(inputs) && |p| >= 2 && ByValueWalk(inputs, fuel, p)
    requires forall id: nat | id < |inputs| && id in p[1..] :: IsRecursive(inputs, id, fuel).Some?
    ensures forall i, j | 0 <= i < j < |p| :: p[i] != p[j]
    ensures |p| <= |inputs|
  {
    forall i, j | 0 <= i < j < |p| ensures p[i] != p[j] {
      assert HoldsByValue(inputs, fuel, p[i], p[i + 1]);
      assert p[1..][i] == p[i + 1];
      AnswersAreRight(inputs, p[i + 1], fuel);
      if p[i] == p[j] {
        ByValueCycle(inputs, fuel, p, i, j);
      }
    }
    forall i | 0 <= i < |p| ensures p[i] < |inputs| {
      assert HoldsByValue(inputs, fuel, p[if i == 0 then 0 else i - 1], p[if i == 0 then 1 else i]);
    }
    if |p| > |inputs| {
      Pigeonhole(p, |inputs|);
    }
  }

  lemma ByValueCycle(inputs: Inputs, fuel: nat, p: seq<nat>, i: nat, j: nat)
    requires Valid(inputs) && ByValueWalk(inputs, fuel, p) && i < j < |p| && p[i] == p[j]
    ensures OnCycle(inputs, p[i + 1])
  {
    // The cycle, seen from its second struct.
    var r := p[i + 1..j + 1] + [p[i + 1]];
    forall k | 0 <= k < |r| - 1 ensures Edge(inputs, r[k], r[k + 1]) {
      if k == |r| - 2 {
        assert HoldsByValue(inputs, fuel, p[i], p[i + 1]);
      } else {
        assert HoldsByValue(inputs, fuel, p[i + 1 + k], p[i + 1 + k + 1]);
      }
    }
    assert Walk(inputs, r);
  }
}
