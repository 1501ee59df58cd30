/** Types as names and qualifiers (section 3.12.1 of the GraphQL specification, June 2018), and in Rust. */
module TypeQualifiers {
  import opened Wrappers
  import opened Ast

  datatype Qualifier = Required | List

  datatype RustType = Path(name: string) | Vec(item: RustType) | Optional(some: RustType)

  // ----- Qualifiers of a type -----

  /** The qualifiers of a type, from outer to inner. */
  function QualifiersOf(t: Type): seq<Qualifier> {
    match t
    case NamedType(_) => []
    case ListType(inner) => [Qualifier.List] + QualifiersOf(inner)
    case NonNullType(inner) => [Required] + QualifiersOf(inner)
  }

  function NameOf(t: Type): string {
    match t
    case NamedType(n) => n
    case ListType(inner) => NameOf(inner)
    case NonNullType(inner) => NameOf(inner)
  }

  /** The type with the given name and qualifiers. */
  function TypeOf(name: string, qualifiers: seq<Qualifier>): Type {
    if qualifiers == [] then NamedType(name)
    else if qualifiers[0] == Qualifier.List then ListType(TypeOf(name, qualifiers[1..]))
    else NonNullType(TypeOf(name, qualifiers[1..]))
  }

  /** Nothing of a type is lost in its name and qualifiers. */
  lemma {:induction false} QualifiersRebuildType(t: Type)
    ensures TypeOf(NameOf(t), QualifiersOf(t)) == t
  {
    match t
    case NamedType(_) =>
    case ListType(inner) =>
      QualifiersRebuildType(inner);
      assert QualifiersOf(t)[1..] == QualifiersOf(inner);
    case NonNullType(inner) =>
      QualifiersRebuildType(inner);
      assert QualifiersOf(t)[1..] == QualifiersOf(inner);
  }

  lemma OneQualifierMore(qualifiers: seq<Qualifier>, t: Type)
    requires !t.NamedType?
    ensures NameOf(t) == NameOf(t.inner)
    ensures qualifiers + QualifiersOf(t) ==
            (qualifiers + [if t.ListType? then Qualifier.List else Required]) + QualifiersOf(t.inner)
  {
  }

  lemma NoQualifiersLeft(qualifiers: seq<Qualifier>, t: Type)
    requires t.NamedType?
    ensures NameOf(t) == t.name && qualifiers + QualifiersOf(t) == qualifiers
  {
  }

  /** The loop of `resolve_field_type`, down to the named type. */
  method ResolveQualifiers(t: Type) returns (name: string, qualifiers: seq<Qualifier>)
    ensures name == NameOf(t) && qualifiers == QualifiersOf(t)
  {
    hide QualifiersOf, NameOf;
    qualifiers := [];
    var inner := t;
    while !inner.NamedType?
      invariant NameOf(inner) == NameOf(t)
      invariant qualifiers + QualifiersOf(inner) == QualifiersOf(t)
      decreases inner
    {
      OneQualifierMore(qualifiers, inner);
      qualifiers := qualifiers + [if inner.ListType? then Qualifier.List else Required];
      inner := inner.inner;
    }
    NoQualifiersLeft(qualifiers, inner);
    name := inner.name;
  }

  // ----- The Rust type -----

  /** Nullable unless marked otherwise. */
  function RustTypeOf(t: Type): RustType
    decreases t, 1
  {
    if t.NonNullType? then NonNullRust(t.inner) else Optional(NonNullRust(t))
  }

  /** The Rust type of the values of `t` other than null. */
  function NonNullRust(t: Type): RustType
    decreases t, 0
  {
    match t
    case NamedType(n) => Path(n)
    case ListType(inner) => Vec(RustTypeOf(inner))
    case NonNullType(inner) => NonNullRust(inner)
  }

  predicate DoublyRequired(t: Type) {
    match t
    case NamedType(_) => false
    case ListType(inner) => DoublyRequired(inner)
    case NonNullType(inner) => inner.NonNullType? || DoublyRequired(inner)
  }

  /**
   The loop of `decorate_type`, from the innermost qualifier outwards.  It gives the Rust
   type of the GraphQL type; None stands for the panic on a doubly required type, which is
   reached exactly when there is one.
   */
  method DecorateType(ident: string, qualifiers: seq<Qualifier>) returns (r: Option<RustType>)
    ensures var t := TypeOf(ident, qualifiers);
            r == if DoublyRequired(t) then None else Some(RustTypeOf(t))
  {
    var qualified := Path(ident);
    var nonNull := false;
    var i := |qualifiers|;
    while i > 0
      invariant 0 <= i <= |qualifiers|
      invariant var t := TypeOf(ident, qualifiers[i..]);
                !DoublyRequired(t) && nonNull == t.NonNullType? && qualified == NonNullRust(t)
    {
      assert qualifiers[i - 1..][1..] == qualifiers[i..];
      i := i - 1;
      match (nonNull, qualifiers[i])
      case (true, List) =>
        qualified := Vec(qualified);
        nonNull := false;
      case (false, List) =>
        qualified := Vec(Optional(qualified));
      case (true, Required) =>
        DoublyRequiredInside(ident, qualifiers, i);
        return None;
      case (false, Required) =>
        nonNull := true;
    }
    assert qualifiers[0..] == qualifiers;
    if !nonNull {
      qualified := Optional(qualified);
    }
    return Some(qualified);
  }

  lemma {:induction false} DoublyRequiredInside(ident: string, qualifiers: seq<Qualifier>, i: nat)
    requires i <= |qualifiers| && DoublyRequired(TypeOf(ident, qualifiers[i..]))
    ensures DoublyRequired(TypeOf(ident, qualifiers))
  {
    if i == 0 {
      assert qualifiers[0..] == qualifiers;
    } else {
      assert qualifiers[1..][i - 1..] == qualifiers[i..];
      DoublyRequiredInside(ident, qualifiers[1..], i - 1);
    }
  }

  /** The loop panics exactly on two qualifiers in a row that say non-null. */
  lemma {:induction false} PanicsExactlyWhen(name: string, qualifiers: seq<Qualifier>)
    ensures DoublyRequired(TypeOf(name, qualifiers)) <==>
            exists i | 0 <= i < |qualifiers| - 1 :: qualifiers[i] == Required && qualifiers[i + 1] == Required
  {
    if qualifiers != [] {
      var rest := qualifiers[1..];
      PanicsExactlyWhen(name, rest);
      assert forall i | 0 <= i < |rest| :: rest[i] == qualifiers[i + 1];
    }
  }

  /** The type that a Rust type stands for: what is optional may be null. */
  function TypeFrom(r: RustType): Type {
    match r
    case Optional(Path(n)) => NamedType(n)
    case Optional(Vec(item)) => ListType(TypeFrom(item))
    case Optional(Optional(some)) => TypeFrom(some)
    case Path(n) => NonNullType(NamedType(n))
    case Vec(item) => NonNullType(ListType(TypeFrom(item)))
  }

  /** Nothing of a type is lost in Rust, neither its name nor what may be null in it. */
  lemma {:induction false} RustTypeReadsBack(t: Type)
    requires !DoublyRequired(t)
    ensures TypeFrom(RustTypeOf(t)) == t
  {
    match t
    case NamedType(_) =>
    case ListType(inner) => RustTypeReadsBack(inner);
    case NonNullType(ListType(inner)) => RustTypeReadsBack(inner);
    case NonNullType(_) =>
  }

  // ----- The two types accept the same JSON values -----

  datatype Json = JNull | JArray(items: seq<Json>) | JOther(text: string)

  /** `leaf` says which values the named type accepts. */
  predicate GraphqlAccepts(t: Type, leaf: Json -> bool, j: Json)
    decreases j, t
  {
    match t
    case NamedType(_) => j == JNull || leaf(j)
    case ListType(inner) => j == JNull || (j.JArray? && forall x | x in j.items :: GraphqlAccepts(inner, leaf, x))
    case NonNullType(inner) => j != JNull && GraphqlAccepts(inner, leaf, j)
  }

  predicate RustAccepts(t: RustType, leaf: Json -> bool, j: Json)
    decreases j, t
  {
    match t
    case Path(_) => leaf(j)
    case Vec(item) => j.JArray? && forall x | x in j.items :: RustAccepts(item, leaf, x)
    case Optional(some) => j == JNull || RustAccepts(some, leaf, j)
  }

  /** As long as the named type itself does not accept null. */
  lemma {:induction false} SameValuesAccepted(t: Type, leaf: Json -> bool, j: Json)
    requires !leaf(JNull)
    ensures RustAccepts(RustTypeOf(t), leaf, j) <==> GraphqlAccepts(t, leaf, j)
    ensures RustAccepts(NonNullRust(t), leaf, j) <==> j != JNull && GraphqlAccepts(t, leaf, j)
    decreases j, t
  {
    match t
    case NamedType(_) =>
    case ListType(inner) =>
      if j.JArray? {
        forall x | x in j.items
          ensures RustAccepts(RustTypeOf(inner), leaf, x) <==> GraphqlAccepts(inner, leaf, x)
        {
          SameValuesAccepted(inner, leaf, x);
        }
      }
    case NonNullType(inner) =>
      SameValuesAccepted(inner, leaf, j);
  }
}
