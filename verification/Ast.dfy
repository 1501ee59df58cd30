/** The query syntax tree of crates/parser/src/query/ast.rs, without source positions. */
module Ast {
  import opened Wrappers

  datatype Value =
    | Variable(name: string)
    | Int(number: int)
    | Float(text: string)
    | String(chars: string)
    | Boolean(flag: bool)
    | Null
    | Enum(name: string)
    | List(items: seq<Value>)
    | Object(fields: seq<Member>)

  /** A named value: an argument, or an entry of an object. */
  datatype Member = Member(name: string, value: Value)

  datatype Type = NamedType(name: string) | ListType(inner: Type) | NonNullType(inner: Type)

  datatype Directive = Directive(name: string, arguments: seq<Member>)

  datatype VariableDefinition = VariableDefinition(name: string, varType: Type, defaultValue: Option<Value>)

  datatype Selection =
    | Field(alias: Option<string>, name: string, arguments: seq<Member>, directives: seq<Directive>,
            selectionSet: seq<Selection>)
    | FragmentSpread(fragmentName: string, directives: seq<Directive>)
    | InlineFragment(typeCondition: Option<string>, directives: seq<Directive>, selectionSet: seq<Selection>)

  datatype OperationType = Query | Mutation | Subscription

  datatype Definition =
    | SelectionSet(selectionSet: seq<Selection>)
    | Operation(kind: OperationType, opName: Option<string>, variables: seq<VariableDefinition>,
                directives: seq<Directive>, selectionSet: seq<Selection>)
    | Fragment(name: string, typeCondition: string, directives: seq<Directive>, selectionSet: seq<Selection>)

  datatype Document = Document(definitions: seq<Definition>)

  function Keyword(kind: OperationType): string {
    match kind
    case Query => "query"
    case Mutation => "mutation"
    case Subscription => "subscription"
  }

  // ----- Objects are ordered maps, as BTreeMap keeps them -----

  /** Lexicographic order of names. */
  predicate Before(a: string, b: string) {
    b != "" && (a == "" || a[0] < b[0] || (a[0] == b[0] && Before(a[1..], b[1..])))
  }

  predicate Ordered(ms: seq<Member>) {
    forall i, j | 0 <= i < j < |ms| :: Before(ms[i].name, ms[j].name)
  }

  /** Inserting an entry; an entry of the same name is replaced. */
  function Insert(ms: seq<Member>, m: Member): seq<Member> {
    if ms == [] || Before(m.name, ms[0].name) then [m] + ms
    else if m.name == ms[0].name then [m] + ms[1..]
    else [ms[0]] + Insert(ms[1..], m)
  }

  /** The map a sequence of entries is collected into. */
  function Collect(ms: seq<Member>): seq<Member> {
    if ms == [] then [] else Insert(Collect(ms[..|ms| - 1]), ms[|ms| - 1])
  }

  lemma {:induction false} BeforeIsOrder(a: string, b: string, c: string)
    ensures !Before(a, a)
    ensures Before(a, b) && Before(b, c) ==> Before(a, c)
    ensures Before(a, b) || a == b || Before(b, a)
  {
    if a != "" {
      BeforeIsOrder(a[1..], if b == "" then "" else b[1..], if c == "" then "" else c[1..]);
      if b != "" && a[0] == b[0] && a[1..] == b[1..] {
        assert a == [a[0]] + a[1..] && b == [b[0]] + b[1..];
      }
    }
  }

  lemma {:induction false} InsertAtEnd(ms: seq<Member>, m: Member)
    requires forall i | 0 <= i < |ms| :: Before(ms[i].name, m.name)
    ensures Insert(ms, m) == ms + [m]
  {
    if ms != [] {
      BeforeIsOrder(m.name, ms[0].name, m.name);
      BeforeIsOrder(ms[0].name, m.name, ms[0].name);
      InsertAtEnd(ms[1..], m);
    }
  }

  /** Collecting the entries of a map gives the map. */
  lemma {:induction false} CollectOrdered(ms: seq<Member>)
    requires Ordered(ms)
    ensures Collect(ms) == ms
  {
    if ms != [] {
      var init := ms[..|ms| - 1];
      CollectOrdered(init);
      InsertAtEnd(init, ms[|ms| - 1]);
      assert ms == init + [ms[|ms| - 1]];
    }
  }

  lemma {:induction false} InsertKeepsOrder(ms: seq<Member>, m: Member)
    requires Ordered(ms)
    ensures Ordered(Insert(ms, m))
    ensures forall x | x in Insert(ms, m) :: x == m || x in ms
  {
    if ms != [] && !Before(m.name, ms[0].name) && m.name != ms[0].name {
      InsertKeepsOrder(ms[1..], m);
      BeforeIsOrder(m.name, ms[0].name, m.name);
      var r := Insert(ms[1..], m);
      forall j | 0 <= j < |r| ensures Before(ms[0].name, r[j].name) {
        assert r[j] in r;
      }
    } else {
      forall j | 0 <= j < |ms| && Before(m.name, ms[0].name) ensures Before(m.name, ms[j].name) {
        BeforeIsOrder(m.name, ms[0].name, ms[j].name);
      }
    }
  }

  /** The last entry of a name. */
  predicate IsLast(ms: seq<Member>, k: nat)
    requires k < |ms|
  {
    forall j | k < j < |ms| :: ms[j].name != ms[k].name
  }

  /** An inserted entry takes the place of one of the same name, and leaves all others. */
  lemma {:induction false} InsertReplaces(ms: seq<Member>, m: Member, x: Member)
    requires Ordered(ms)
    ensures x in Insert(ms, m) <==> x == m || (x in ms && x.name != m.name)
  {
    if ms == [] || Before(m.name, ms[0].name) {
      forall j | 0 <= j < |ms| ensures ms[j].name != m.name {
        BeforeIsOrder(m.name, ms[0].name, ms[j].name);
      }
    } else {
      assert forall y :: y in ms <==> y == ms[0] || y in ms[1..];
      if m.name == ms[0].name {
        forall j | 0 < j < |ms| ensures ms[j].name != m.name {
          BeforeIsOrder(m.name, ms[j].name, m.name);
        }
      } else {
        InsertReplaces(ms[1..], m, x);
      }
    }
  }

  /**
   Whatever entries are collected, the result is a map, ordered and with no name twice; and
   of several entries of a name it has the last.
   */
  lemma {:induction false} CollectIsOrdered(ms: seq<Member>)
    ensures Ordered(Collect(ms))
    ensures forall x :: x in Collect(ms) <==> exists k :: 0 <= k < |ms| && ms[k] == x && IsLast(ms, k)
  {
    if ms != [] {
      var init, m := ms[..|ms| - 1], ms[|ms| - 1];
      CollectIsOrdered(init);
      InsertKeepsOrder(Collect(init), m);
      forall x ensures x in Collect(ms) <==> exists k :: 0 <= k < |ms| && ms[k] == x && IsLast(ms, k) {
        InsertReplaces(Collect(init), m, x);
        LastOfMore(init, m, x);
        assert ms == init + [m];
      }
    }
  }

  lemma LastOfMore(ms: seq<Member>, m: Member, x: Member)
    ensures (exists k :: 0 <= k < |ms + [m]| && (ms + [m])[k] == x && IsLast(ms + [m], k)) <==>
            x == m || (x.name != m.name && exists k :: 0 <= k < |ms| && ms[k] == x && IsLast(ms, k))
  {
    var all := ms + [m];
    assert all[|ms|] == m && forall j | 0 <= j < |ms| :: all[j] == ms[j];
    if x == m {
      assert IsLast(all, |ms|);
    } else if x.name != m.name && exists k :: 0 <= k < |ms| && ms[k] == x && IsLast(ms, k) {
      var k :| 0 <= k < |ms| && ms[k] == x && IsLast(ms, k);
      assert all[k] == x && IsLast(all, k);
    }
  }
}
