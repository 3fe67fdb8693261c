/**
 * IDE-side type helpers: approximation of flexible platform types by a
 * canonical non-flexible type, the pre-order collection of every type a type
 * refers to, and the three-way nullability classification.
 *
 * `isMutableCollection` stands for the collection-class mapping's
 * `isMutableCollection` test on a class, which this model does not define.
 */
module TypeUtils {
  import opened Names
  import opened Types

  // ---------------------------------------------------------------------------
  // approximateFlexibleTypes
  // ---------------------------------------------------------------------------

  /** The two simple types agree on everything but their argument types. */
  ghost predicate SameShape(s: SimpleType, r: SimpleType) {
    && r.ctor == s.ctor
    && r.nullable == s.nullable
    && r.readOnlyAnn == s.readOnlyAnn
    && r.notNullAnn == s.notNullAnn
    && |r.args| == |s.args|
    && forall i :: 0 <= i < |s.args| ==> r.args[i].projectionKind == s.args[i].projectionKind
  }

  /** `isMarkedReadOnly()`: the type carries the read-only marker annotation. */
  function IsMarkedReadOnly(t: JetType): (r: bool)
    ensures r ==> !t.Dynamic?
  {
    match t
    case Dynamic => false
    case Simple(s) => s.readOnlyAnn
    case Flexible(_, _, readOnly, _) => readOnly
  }

  /** `isMarkedNotNull()`: the type carries the not-null marker annotation. */
  function IsMarkedNotNull(t: JetType): (r: bool)
    ensures r ==> !t.Dynamic?
  {
    match t
    case Dynamic => false
    case Simple(s) => s.notNullAnn
    case Flexible(_, _, _, notNull) => notNull
  }

  /** The lower bound of a flexible type is a class the mapping calls a mutable collection. */
  predicate IsCollectionBound(lower: SimpleType, isMutableCollection: FqName -> bool): (r: bool)
    ensures r ==> lower.ctor.ClassConstructor?
  {
    lower.ctor.ClassConstructor? && isMutableCollection(lower.ctor.classFqName)
  }

  /**
   * `approximateFlexibleTypes(jetType, outermost)`. A dynamic type is kept.
   * A flexible type is replaced by one of its bounds, approximated in turn:
   * for a mutable-collection lower bound the upper bound if the type is
   * marked read-only, else the lower bound, with nullability set to
   * `outermost`; for any other type the upper bound when `outermost`, else
   * the lower bound; a not-null marker then clears the nullability. A simple
   * type keeps its constructor, annotations and nullability and has each
   * argument type approximated with `outermost = false`.
   */
  function ApproximateFlexibleTypes(t: JetType, outermost: bool, isMutableCollection: FqName -> bool): (r: JetType)
    decreases Size(t), 1
    ensures r.Dynamic? <==> t.Dynamic?
    ensures t.Dynamic? ==> r == t
    ensures NoFlexible(r)
    ensures t.Simple? ==> r.Simple? && SameShape(t.s, r.s)
  {
    match t
    case Dynamic => t
    case Flexible(lower, upper, _, _) =>
      var approximation :=
        if IsCollectionBound(lower, isMutableCollection) then
          MakeNullableAsSpecified(if IsMarkedReadOnly(t) then upper else lower, outermost)
        else if outermost then upper else lower;
      assert Size(t) == 1 + SimpleSize(lower) + SimpleSize(upper);
      assert Size(Simple(approximation)) == 1 + SimpleSize(approximation);
      assert SimpleSize(approximation) == SimpleSize(lower) || SimpleSize(approximation) == SimpleSize(upper);
      var approximated := ApproximateFlexibleTypes(Simple(approximation), true, isMutableCollection);
      if IsMarkedNotNull(t) then Simple(MakeNotNullable(approximated.s)) else approximated
    case Simple(s) =>
      assert Size(t) == 1 + SimpleSize(s);
      Simple(SimpleType(s.ctor, s.nullable, ApproximateArguments(s.args, isMutableCollection), s.readOnlyAnn, s.notNullAnn))
  }

  /** The arguments' `map { TypeProjectionImpl(kind, approximateFlexibleTypes(type, false)) }`. */
  function ApproximateArguments(args: seq<TypeArg>, isMutableCollection: FqName -> bool): (r: seq<TypeArg>)
    decreases ArgsSize(args), 0
    ensures |r| == |args|
    ensures forall i :: 0 <= i < |args| ==> r[i].projectionKind == args[i].projectionKind
    ensures forall i :: 0 <= i < |r| ==> NoFlexible(r[i].argType)
  {
    if |args| == 0 then []
    else
      assert ArgsSize(args) == ArgSize(args[0]) + ArgsSize(args[1..]);
      [TypeArg(args[0].projectionKind, ApproximateFlexibleTypes(args[0].argType, false, isMutableCollection))]
        + ApproximateArguments(args[1..], isMutableCollection)
  }

  /** Each approximated argument is its argument's type approximated with `outermost = false`. */
  lemma {:induction false} ApproximateArgumentsPointwise(args: seq<TypeArg>, isMutableCollection: FqName -> bool, i: int)
    requires 0 <= i < |args|
    ensures ApproximateArguments(args, isMutableCollection)[i]
      == TypeArg(args[i].projectionKind, ApproximateFlexibleTypes(args[i].argType, false, isMutableCollection))
  {
    if i > 0 {
      ApproximateArgumentsPointwise(args[1..], isMutableCollection, i - 1);
    }
  }

  /**
   * A non-flexible type: same constructor, annotations, nullability marker,
   * argument count and projection kinds; each argument type approximated
   * with `outermost = false`.
   */
  lemma ApproximateSimple(s: SimpleType, outermost: bool, isMutableCollection: FqName -> bool)
    ensures
      var r := ApproximateFlexibleTypes(Simple(s), outermost, isMutableCollection);
      && r.Simple? && SameShape(s, r.s)
      && forall i :: 0 <= i < |s.args| ==>
        r.s.args[i].argType == ApproximateFlexibleTypes(s.args[i].argType, false, isMutableCollection)
  {
    forall i | 0 <= i < |s.args|
      ensures ApproximateFlexibleTypes(Simple(s), outermost, isMutableCollection).s.args[i].argType
        == ApproximateFlexibleTypes(s.args[i].argType, false, isMutableCollection)
    {
      ApproximateArgumentsPointwise(s.args, isMutableCollection, i);
    }
  }

  /**
   * A flexible type is replaced by the simple type built from its chosen
   * bound: that bound's constructor and annotations, its arguments
   * approximated, and the nullability the branch prescribes, cleared by the
   * not-null marker.
   */
  lemma ApproximateFlexible(lower: SimpleType, upper: SimpleType, readOnly: bool, notNull: bool,
                            outermost: bool, isMutableCollection: FqName -> bool)
    ensures
      var t := Flexible(lower, upper, readOnly, notNull);
      var r := ApproximateFlexibleTypes(t, outermost, isMutableCollection);
      var isCollection := IsCollectionBound(lower, isMutableCollection);
      var bound := if isCollection then (if readOnly then upper else lower)
                   else (if outermost then upper else lower);
      var nullable := if isCollection then outermost else bound.nullable;
      && r.Simple?
      && r.s.ctor == bound.ctor
      && r.s.readOnlyAnn == bound.readOnlyAnn && r.s.notNullAnn == bound.notNullAnn
      && r.s.args == ApproximateArguments(bound.args, isMutableCollection)
      && r.s.nullable == (nullable && !notNull)
  {
  }

  /**
   * A flexible type over a mutable collection marked read-only becomes its
   * upper bound with nullability `outermost`, cleared by the not-null marker
   * (provided the bound itself holds no flexible type).
   */
  lemma {:induction false} ApproximateReadOnlyCollection(lower: SimpleType, upper: SimpleType, notNull: bool,
                                                         outermost: bool, isMutableCollection: FqName -> bool)
    requires IsCollectionBound(lower, isMutableCollection)
    requires NoFlexible(Simple(upper))
    ensures ApproximateFlexibleTypes(Flexible(lower, upper, true, notNull), outermost, isMutableCollection)
      == Simple(upper.(nullable := outermost && !notNull))
  {
    ApproximateFlexible(lower, upper, true, notNull, outermost, isMutableCollection);
    ApproximateArgumentsIdentity(upper.args, isMutableCollection);
  }

  /** Approximation leaves a type without flexible nodes as it is. */
  lemma {:induction false} ApproximateIdentity(t: JetType, outermost: bool, isMutableCollection: FqName -> bool)
    requires NoFlexible(t)
    ensures ApproximateFlexibleTypes(t, outermost, isMutableCollection) == t
    decreases Size(t), 1
  {
    match t
    case Dynamic =>
    case Simple(s) =>
      assert Size(t) == 1 + SimpleSize(s);
      ApproximateArgumentsIdentity(s.args, isMutableCollection);
  }

  lemma {:induction false} ApproximateArgumentsIdentity(args: seq<TypeArg>, isMutableCollection: FqName -> bool)
    requires forall i :: 0 <= i < |args| ==> NoFlexible(args[i].argType)
    ensures ApproximateArguments(args, isMutableCollection) == args
    decreases ArgsSize(args), 0
  {
    if |args| > 0 {
      assert ArgsSize(args) == ArgSize(args[0]) + ArgsSize(args[1..]);
      ApproximateIdentity(args[0].argType, false, isMutableCollection);
      ApproximateArgumentsIdentity(args[1..], isMutableCollection);
    }
  }

  /** Approximating an approximation changes nothing. */
  lemma ApproximateIdempotent(t: JetType, outermost: bool, outermost': bool, isMutableCollection: FqName -> bool)
    ensures
      var r := ApproximateFlexibleTypes(t, outermost, isMutableCollection);
      ApproximateFlexibleTypes(r, outermost', isMutableCollection) == r
  {
    ApproximateIdentity(ApproximateFlexibleTypes(t, outermost, isMutableCollection), outermost', isMutableCollection);
  }

  // Worked examples of the documented conversions.

  function Class(name: Name, nullable: bool, args: seq<TypeArg>): SimpleType {
    SimpleType(ClassConstructor([name]), nullable, args, false, false)
  }

  /** A platform type over `name` with the given argument list on both bounds. */
  function Platform(name: Name, args: seq<TypeArg>): JetType {
    Flexible(Class(name, false, args), Class(name, true, args), false, false)
  }

  /** The platform collection type `(Mutable)Collection<T>!`. */
  function PlatformCollection(): JetType {
    var t := [TypeArg(Invariant, Simple(SimpleType(OtherConstructor("T"), false, [], false, false)))];
    Flexible(Class("MutableCollection", false, t), Class("Collection", true, t), false, false)
  }

  /** `Foo! -> Foo?` and `Foo<Bar!>! -> Foo<Bar>?`. */
  lemma PlatformClassExamples(isMutableCollection: FqName -> bool)
    requires !isMutableCollection(["Foo"]) && !isMutableCollection(["Bar"])
    ensures ApproximateFlexibleTypes(Platform("Foo", []), true, isMutableCollection)
      == Simple(Class("Foo", true, []))
    ensures ApproximateFlexibleTypes(Platform("Foo", [TypeArg(Invariant, Platform("Bar", []))]), true, isMutableCollection)
      == Simple(Class("Foo", true, [TypeArg(Invariant, Simple(Class("Bar", false, [])))]))
  {
    var bar := [TypeArg(Invariant, Platform("Bar", []))];
    ApproximateFlexible(Class("Foo", false, bar), Class("Foo", true, bar), false, false, true, isMutableCollection);
    ApproximateFlexible(Class("Bar", false, []), Class("Bar", true, []), false, false, false, isMutableCollection);
  }

  /**
   * `(Mutable)Collection<T>! -> MutableCollection<T>?`; nested without a
   * read-only marker, the same platform type becomes `MutableCollection<T>`
   * (not `Collection<T>`): `Foo<(Mutable)Collection<T>!>! -> Foo<MutableCollection<T>>?`.
   */
  lemma PlatformCollectionExamples(isMutableCollection: FqName -> bool)
    requires isMutableCollection(["MutableCollection"]) && !isMutableCollection(["Foo"])
    ensures
      var t := [TypeArg(Invariant, Simple(SimpleType(OtherConstructor("T"), false, [], false, false)))];
      && ApproximateFlexibleTypes(PlatformCollection(), true, isMutableCollection)
         == Simple(Class("MutableCollection", true, t))
      && ApproximateFlexibleTypes(Platform("Foo", [TypeArg(Invariant, PlatformCollection())]), true, isMutableCollection)
         == Simple(Class("Foo", true, [TypeArg(Invariant, Simple(Class("MutableCollection", false, t)))]))
  {
    var t := [TypeArg(Invariant, Simple(SimpleType(OtherConstructor("T"), false, [], false, false)))];
    var c := [TypeArg(Invariant, PlatformCollection())];
    ApproximateFlexible(Class("MutableCollection", false, t), Class("Collection", true, t), false, false, true, isMutableCollection);
    ApproximateFlexible(Class("MutableCollection", false, t), Class("Collection", true, t), false, false, false, isMutableCollection);
    ApproximateFlexible(Class("Foo", false, c), Class("Foo", true, c), false, false, true, isMutableCollection);
    ApproximateArgumentsIdentity(t, isMutableCollection);
  }

  // ---------------------------------------------------------------------------
  // getAllReferencedTypes
  // ---------------------------------------------------------------------------

  /** Every type visited by a pre-order depth-first walk, repeats included. */
  function DepthFirstOrder(t: JetType): (r: seq<JetType>)
    decreases Size(t), 1
    ensures |r| > 0 && r[0] == t
  {
    [t] + DepthFirstOrderOfArgs(Arguments(t))
  }

  function DepthFirstOrderOfArgs(args: seq<TypeArg>): seq<JetType>
    decreases ArgsSize(args), 0
  {
    if |args| == 0 then []
    else
      assert ArgsSize(args) == ArgSize(args[0]) + ArgsSize(args[1..]);
      DepthFirstOrder(args[0].argType) + DepthFirstOrderOfArgs(args[1..])
  }

  lemma {:induction false} DepthFirstOrderOfArgsAppend(a: seq<TypeArg>, b: seq<TypeArg>)
    ensures DepthFirstOrderOfArgs(a + b) == DepthFirstOrderOfArgs(a) + DepthFirstOrderOfArgs(b)
    decreases |a|
  {
    if |a| > 0 {
      assert (a + b)[0] == a[0] && (a + b)[1..] == a[1..] + b;
      DepthFirstOrderOfArgsAppend(a[1..], b);
    } else {
      assert a + b == b;
    }
  }

  /** x equals t or is, transitively, the type of one of t's arguments. */
  ghost predicate Reaches(t: JetType, x: JetType)
    decreases t
  {
    x == t ||
    match t
    case Dynamic => false
    case Simple(s) => exists i :: 0 <= i < |s.args| && Reaches(s.args[i].argType, x)
    case Flexible(lower, _, _, _) => exists i :: 0 <= i < |lower.args| && Reaches(lower.args[i].argType, x)
  }

  lemma ReachesStep(t: JetType, x: JetType)
    ensures Reaches(t, x) <==>
      x == t || exists i :: 0 <= i < |Arguments(t)| && Reaches(Arguments(t)[i].argType, x)
  {
    match t
    case Dynamic =>
    case Simple(s) => assert Arguments(t) == s.args;
    case Flexible(lower, _, _, _) => assert Arguments(t) == lower.args;
  }

  lemma {:induction false} ReachesTransitive(t: JetType, x: JetType, y: JetType)
    requires Reaches(t, x) && Reaches(x, y)
    ensures Reaches(t, y)
    decreases t
  {
    if x != t {
      ReachesStep(t, x);
      var i :| 0 <= i < |Arguments(t)| && Reaches(Arguments(t)[i].argType, x);
      match t
      case Simple(s) => ReachesTransitive(s.args[i].argType, x, y);
      case Flexible(lower, _, _, _) => ReachesTransitive(lower.args[i].argType, x, y);
      ReachesStep(t, y);
    }
  }

  /** The walk visits exactly the types t reaches. */
  lemma {:induction false} DepthFirstOrderReaches(t: JetType, x: JetType)
    ensures x in DepthFirstOrder(t) <==> Reaches(t, x)
    decreases Size(t), 1
  {
    DepthFirstOrderOfArgsReaches(Arguments(t), x);
    ReachesStep(t, x);
  }

  lemma {:induction false} DepthFirstOrderOfArgsReaches(args: seq<TypeArg>, x: JetType)
    ensures x in DepthFirstOrderOfArgs(args) <==> exists i :: 0 <= i < |args| && Reaches(args[i].argType, x)
    decreases ArgsSize(args), 0
  {
    if |args| > 0 {
      assert ArgsSize(args) == ArgSize(args[0]) + ArgsSize(args[1..]);
      DepthFirstOrderReaches(args[0].argType, x);
      DepthFirstOrderOfArgsReaches(args[1..], x);
      if exists i :: 0 <= i < |args| && Reaches(args[i].argType, x) {
        var i :| 0 <= i < |args| && Reaches(args[i].argType, x);
        if i > 0 {
          assert args[1..][i - 1] == args[i];
        }
      }
    }
  }

  /** Index of the first occurrence of x in xs (|xs| when x does not occur). */
  function FirstIndex(xs: seq<JetType>, x: JetType): (k: nat)
    ensures k <= |xs|
    ensures k < |xs| <==> x in xs
    ensures k < |xs| ==> xs[k] == x && x !in xs[..k]
  {
    if |xs| == 0 then 0
    else if xs[0] == x then 0
    else
      var k := 1 + FirstIndex(xs[1..], x);
      assert k < |xs| ==> xs[..k] == [xs[0]] + xs[1..][..k - 1];
      k
  }

  ghost predicate NoDuplicates(s: seq<JetType>) {
    forall i, j :: 0 <= i < j < |s| ==> s[i] != s[j]
  }

  /** `LinkedHashSet.add`: append the element unless it is already present. */
  function Insert(s: seq<JetType>, x: JetType): seq<JetType> {
    if x in s then s else s + [x]
  }

  /** Adding the elements of xs to s one by one, in order. */
  function InsertAll(s: seq<JetType>, xs: seq<JetType>): seq<JetType>
    decreases |xs|
  {
    if |xs| == 0 then s else InsertAll(Insert(s, xs[0]), xs[1..])
  }

  lemma {:induction false} InsertAllAppend(s: seq<JetType>, a: seq<JetType>, b: seq<JetType>)
    ensures InsertAll(s, a + b) == InsertAll(InsertAll(s, a), b)
    decreases |a|
  {
    if |a| == 0 {
      assert a + b == b;
    } else {
      assert (a + b)[0] == a[0] && (a + b)[1..] == a[1..] + b;
      InsertAllAppend(Insert(s, a[0]), a[1..], b);
    }
  }

  /** Adding keeps s as a prefix; what follows are elements of xs that were not in s. */
  lemma {:induction false} InsertAllExtends(s: seq<JetType>, xs: seq<JetType>)
    ensures var r := InsertAll(s, xs);
      && |s| <= |r| && r[..|s|] == s
      && forall i :: |s| <= i < |r| ==> r[i] !in s && r[i] in xs
    decreases |xs|
  {
    if |xs| > 0 {
      var s' := Insert(s, xs[0]);
      var r := InsertAll(s', xs[1..]);
      InsertAllExtends(s', xs[1..]);
      assert s'[..|s|] == s;
      forall i | |s| <= i < |r|
        ensures r[i] !in s && r[i] in xs
      {
        if i >= |s'| {
          assert r[i] !in s' && r[i] in xs[1..];
        } else {
          assert r[i] == s'[i] == xs[0];
        }
      }
    }
  }

  /** After adding, the elements are those of s and those of xs. */
  lemma {:induction false} InsertAllMembers(s: seq<JetType>, xs: seq<JetType>, x: JetType)
    ensures x in InsertAll(s, xs) <==> x in s || x in xs
    decreases |xs|
  {
    if |xs| > 0 {
      InsertAllMembers(Insert(s, xs[0]), xs[1..], x);
      assert x in xs <==> x == xs[0] || x in xs[1..];
    }
  }

  /** Adding never introduces a repeat. */
  lemma {:induction false} InsertAllNoDuplicates(s: seq<JetType>, xs: seq<JetType>)
    requires NoDuplicates(s)
    ensures NoDuplicates(InsertAll(s, xs))
    decreases |xs|
  {
    if |xs| > 0 {
      InsertAllNoDuplicates(Insert(s, xs[0]), xs[1..]);
    }
  }

  /** The newly added elements come in the order of their first occurrence in xs. */
  lemma {:induction false} InsertAllOrder(s: seq<JetType>, xs: seq<JetType>)
    ensures var r := InsertAll(s, xs);
      forall i, j :: |s| <= i < j < |r| ==> FirstIndex(xs, r[i]) < FirstIndex(xs, r[j])
    decreases |xs|
  {
    if |xs| > 0 {
      var x0 := xs[0];
      var s' := Insert(s, x0);
      var r := InsertAll(s', xs[1..]);
      InsertAllOrder(s', xs[1..]);
      InsertAllExtends(s', xs[1..]);
      forall i, j | |s| <= i < j < |r|
        ensures FirstIndex(xs, r[i]) < FirstIndex(xs, r[j])
      {
        assert r[j] !in s';
        assert r[j] != x0 && FirstIndex(xs, r[j]) == 1 + FirstIndex(xs[1..], r[j]);
        if i >= |s'| {
          assert r[i] !in s';
          assert r[i] != x0 && FirstIndex(xs, r[i]) == 1 + FirstIndex(xs[1..], r[i]);
        } else {
          assert r[i] == s'[i] == x0;
        }
      }
    }
  }

  /** The insertion-ordered set that `getAllReferencedTypes` fills (a `LinkedHashSet`). */
  class LinkedTypeSet {
    var elements: seq<JetType>

    constructor ()
      ensures elements == []
    {
      elements := [];
    }

    /** `add`: true when the element was not yet present. */
    method Add(x: JetType) returns (added: bool)
      modifies this
      ensures added <==> x !in old(elements)
      ensures elements == Insert(old(elements), x)
    {
      added := x !in elements;
      if added {
        elements := elements + [x];
      }
    }
  }

  /** Walking one more argument appends that argument's walk. */
  lemma DepthFirstOrderOfArgsPrefix(t: JetType, args: seq<TypeArg>, i: int)
    requires 0 <= i < |args|
    ensures [t] + DepthFirstOrderOfArgs(args[..i + 1])
         == [t] + DepthFirstOrderOfArgs(args[..i]) + DepthFirstOrder(args[i].argType)
  {
    assert args[..i + 1] == args[..i] + [args[i]];
    DepthFirstOrderOfArgsAppend(args[..i], [args[i]]);
    assert DepthFirstOrderOfArgs([args[i]]) == DepthFirstOrder(args[i].argType);
  }

  /**
   * The nested `addType`: adds the type, then walks its arguments in
   * order. Arguments are walked again even when the type was already in
   * the set.
   */
  method AddType(t: JetType, types: LinkedTypeSet)
    modifies types
    ensures types.elements == InsertAll(old(types.elements), DepthFirstOrder(t))
    decreases Size(t)
  {
    ghost var start := types.elements;
    var _ := types.Add(t);
    var args := Arguments(t);
    for i := 0 to |args|
      invariant types.elements == InsertAll(start, [t] + DepthFirstOrderOfArgs(args[..i]))
    {
      assert ArgsSize(args) < Size(t);
      assert Size(args[i].argType) < Size(t) by {
        ArgSmaller(args, i);
      }
      ghost var before := [t] + DepthFirstOrderOfArgs(args[..i]);
      AddType(args[i].argType, types);
      DepthFirstOrderOfArgsPrefix(t, args, i);
      InsertAllAppend(start, before, DepthFirstOrder(args[i].argType));
    }
    assert args[..|args|] == args;
  }

  /**
   * `getAllReferencedTypes()`: the root and every type nested in its
   * arguments, each once, in the order a pre-order depth-first walk first
   * meets them.
   */
  method GetAllReferencedTypes(root: JetType) returns (r: seq<JetType>)
    ensures r == InsertAll([], DepthFirstOrder(root))
    ensures |r| > 0 && r[0] == root
    ensures NoDuplicates(r)
    ensures forall x :: x in r <==> Reaches(root, x)
    ensures forall x, i :: x in r && 0 <= i < |Arguments(x)| ==> Arguments(x)[i].argType in r
    ensures forall i, j :: 0 <= i < j < |r| ==>
      FirstIndex(DepthFirstOrder(root), r[i]) < FirstIndex(DepthFirstOrder(root), r[j])
  {
    var types := new LinkedTypeSet();
    AddType(root, types);
    r := types.elements;
    var walk := DepthFirstOrder(root);
    InsertAllNoDuplicates([], walk);
    InsertAllOrder([], walk);
    assert walk == [root] + walk[1..];
    InsertAllAppend([], [root], walk[1..]);
    assert InsertAll([], [root]) == [root] by {
      assert InsertAll([], [root]) == InsertAll(Insert([], root), []);
    }
    InsertAllExtends([root], walk[1..]);
    assert r[..1] == [root];
    forall x
      ensures x in r <==> Reaches(root, x)
    {
      InsertAllMembers([], walk, x);
      DepthFirstOrderReaches(root, x);
    }
    forall x, i | x in r && 0 <= i < |Arguments(x)|
      ensures Arguments(x)[i].argType in r
    {
      var a := Arguments(x)[i].argType;
      ReachesStep(x, a);
      assert Reaches(a, a);
      InsertAllMembers([], walk, x);
      InsertAllMembers([], walk, a);
      DepthFirstOrderReaches(root, x);
      DepthFirstOrderReaches(root, a);
      ReachesTransitive(root, x, a);
    }
  }

  // ---------------------------------------------------------------------------
  // nullability
  // ---------------------------------------------------------------------------

  datatype TypeNullability = NotNull | Nullable | FlexibleNullability

  /**
   * `isNullabilityFlexible()`: a flexible type whose bounds differ in
   * nullability. The dynamic type is the flexible type `Nothing..Any?`.
   */
  predicate IsNullabilityFlexible(t: JetType): (r: bool)
    ensures t.Simple? ==> !r
    ensures t.Flexible? && r ==> t.lower.nullable || t.upper.nullable
  {
    match t
    case Dynamic => true
    case Simple(_) => false
    case Flexible(lower, upper, _, _) => lower.nullable != upper.nullable
  }

  /** `TypeUtils.isNullableType`: marked nullable, or flexible with a nullable upper bound. */
  predicate IsNullableType(t: JetType): (r: bool)
    ensures t.Flexible? && t.upper.nullable ==> r
    ensures IsNullabilityFlexible(t) ==> r
  {
    match t
    case Dynamic => true
    case Simple(s) => s.nullable
    case Flexible(lower, upper, _, _) => lower.nullable || upper.nullable
  }

  /** `nullability()`: FLEXIBLE, else NULLABLE, else NOT_NULL, tested in that order. */
  function Nullability(t: JetType): (r: TypeNullability)
    ensures r == FlexibleNullability <==> IsNullabilityFlexible(t)
    ensures r == Nullable <==> !IsNullabilityFlexible(t) && IsNullableType(t)
    ensures r == NotNull <==> !IsNullabilityFlexible(t) && !IsNullableType(t)
  {
    if IsNullabilityFlexible(t) then FlexibleNullability
    else if IsNullableType(t) then Nullable
    else NotNull
  }

  /**
   * A flexible type is FLEXIBLE exactly when its bounds differ in
   * nullability; with equal nullability it reports that nullability.
   */
  lemma NullabilityOfFlexible(lower: SimpleType, upper: SimpleType, readOnly: bool, notNull: bool)
    ensures var n := Nullability(Flexible(lower, upper, readOnly, notNull));
      && (n == FlexibleNullability <==> lower.nullable != upper.nullable)
      && (lower.nullable == upper.nullable ==> n == (if lower.nullable then Nullable else NotNull))
  {
  }

  /**
   * An approximated non-dynamic type is never FLEXIBLE: its nullability is
   * its nullability marker.
   */
  lemma NullabilityOfApproximation(t: JetType, outermost: bool, isMutableCollection: FqName -> bool)
    requires !t.Dynamic?
    ensures var r := ApproximateFlexibleTypes(t, outermost, isMutableCollection);
      Nullability(r) == (if r.s.nullable then Nullable else NotNull)
  {
    var r := ApproximateFlexibleTypes(t, outermost, isMutableCollection);
    assert NoFlexible(r);
  }

  /**
   * At the outermost level a platform type that is not a collection and has
   * no not-null marker becomes NULLABLE exactly when its upper bound is
   * nullable: `Foo!` becomes `Foo?`.
   */
  lemma NullabilityOfOutermostPlatformType(lower: SimpleType, upper: SimpleType, readOnly: bool,
                                           isMutableCollection: FqName -> bool)
    requires !IsCollectionBound(lower, isMutableCollection)
    ensures var r := ApproximateFlexibleTypes(Flexible(lower, upper, readOnly, false), true, isMutableCollection);
      Nullability(r) == (if upper.nullable then Nullable else NotNull)
  {
    ApproximateFlexible(lower, upper, readOnly, false, true, isMutableCollection);
    NullabilityOfApproximation(Flexible(lower, upper, readOnly, false), true, isMutableCollection);
  }
}
