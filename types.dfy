/**
 * The shape of the compiler's types as the IDE helpers read them: a dynamic
 * type, a simple type (constructor, nullability marker, type arguments and
 * the two annotations the helpers look for), or a flexible platform type
 * `T!` with a lower and an upper simple bound.
 */
module Types {
  import opened Names

  /** What a type constructor is declared by: a class, or something else (a type parameter). */
  datatype TypeConstructor =
    | ClassConstructor(classFqName: FqName)
    | OtherConstructor(id: string)

  /** The projection kind of a type argument. */
  datatype Variance = Invariant | InVariance | OutVariance

  /** A type argument: its projection kind and its type. */
  datatype TypeArg = TypeArg(projectionKind: Variance, argType: JetType)

  /**
   * A non-flexible class or type-parameter type. `readOnlyAnn` and
   * `notNullAnn` say whether its annotations include the read-only and the
   * not-null marker annotations.
   */
  datatype SimpleType = SimpleType(
    ctor: TypeConstructor,
    nullable: bool,
    args: seq<TypeArg>,
    readOnlyAnn: bool,
    notNullAnn: bool)

  /** A type. A flexible type's bounds are always simple types. */
  datatype JetType =
    | Dynamic
    | Simple(s: SimpleType)
    | Flexible(lower: SimpleType, upper: SimpleType, readOnlyAnn: bool, notNullAnn: bool)

  /** Size of a type tree; a flexible node is larger than either of its bounds. */
  function Size(t: JetType): nat
    decreases t
  {
    match t
    case Dynamic => 1
    case Simple(s) => 1 + SimpleSize(s)
    case Flexible(lower, upper, _, _) => 1 + SimpleSize(lower) + SimpleSize(upper)
  }

  /** Size of a simple type; it does not depend on the nullability marker or annotations. */
  function SimpleSize(s: SimpleType): nat
    decreases s
  {
    1 + ArgsSize(s.args)
  }

  function ArgsSize(args: seq<TypeArg>): nat
    decreases args
  {
    if |args| == 0 then 0 else ArgSize(args[0]) + ArgsSize(args[1..])
  }

  function ArgSize(a: TypeArg): nat
    decreases a
  {
    1 + Size(a.argType)
  }

  /** Every argument type is smaller than the argument list it is in. */
  lemma {:induction false} ArgSmaller(args: seq<TypeArg>, i: int)
    requires 0 <= i < |args|
    ensures Size(args[i].argType) < ArgsSize(args)
  {
    if i > 0 {
      ArgSmaller(args[1..], i - 1);
    }
  }

  /**
   * `getArguments()`: a flexible type answers with its lower bound's
   * arguments, a dynamic type has none.
   */
  function Arguments(t: JetType): (r: seq<TypeArg>)
    ensures ArgsSize(r) < Size(t)
  {
    match t
    case Dynamic => []
    case Simple(s) => s.args
    case Flexible(lower, _, _, _) => lower.args
  }

  /** `TypeUtils.makeNullableAsSpecified` on a simple type: sets the nullability marker. */
  function MakeNullableAsSpecified(s: SimpleType, nullable: bool): (r: SimpleType)
    ensures r.nullable == nullable
    ensures r.ctor == s.ctor && r.args == s.args && r.readOnlyAnn == s.readOnlyAnn && r.notNullAnn == s.notNullAnn
  {
    s.(nullable := nullable)
  }

  /** `makeNotNullable()` on a simple type: clears the nullability marker. */
  function MakeNotNullable(s: SimpleType): (r: SimpleType)
    ensures !r.nullable
    ensures r.ctor == s.ctor && r.args == s.args && r.readOnlyAnn == s.readOnlyAnn && r.notNullAnn == s.notNullAnn
  {
    s.(nullable := false)
  }

  /** No flexible node occurs anywhere in the type tree. */
  predicate NoFlexible(t: JetType)
    decreases t
  {
    match t
    case Dynamic => true
    case Simple(s) => forall i :: 0 <= i < |s.args| ==> NoFlexible(s.args[i].argType)
    case Flexible(_, _, _, _) => false
  }
}
