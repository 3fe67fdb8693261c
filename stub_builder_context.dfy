/**
 * The context threaded through the decompiler's stub builder: a linked chain of
 * type-parameter scopes, the provider of qualified member names, the context
 * bundle with its two derivations, and the annotation loader that only records
 * annotation class ids.
 *
 * Everything except the loader is an immutable value; each derivation returns
 * a copy with some fields overridden.
 */
module StubBuilderContext {
  import opened Wrappers
  import opened Names

  /** The string table of one serialized unit: name index to name. */
  type NameResolver = int -> Name

  /** The two fields of a serialized type parameter that scopes read. */
  datatype TypeParameterProto = TypeParameterProto(id: int, nameIndex: int)

  /** The fault raised for a type-parameter id that no scope declares. */
  datatype LookupError = UnknownTypeParameter(id: int)

  /** Some proto in the list carries this id. */
  ghost predicate Declares(protos: seq<TypeParameterProto>, id: int) {
    exists i :: 0 <= i < |protos| && protos[i].id == id
  }

  /** protos[i] is the last proto in the list with its id. */
  ghost predicate IsLastWithId(protos: seq<TypeParameterProto>, i: int) {
    0 <= i < |protos| && forall j :: i < j < |protos| ==> protos[j].id != protos[i].id
  }

  /**
   * The list of (id, name) pairs turned into a map, as `map { ... }.toMap()`
   * does: every declared id is a key, and a later proto with the same id
   * replaces an earlier one.
   */
  function TypeParametersById(nameResolver: NameResolver, protos: seq<TypeParameterProto>): (m: map<int, Name>)
    ensures forall id :: id in m <==> Declares(protos, id)
    ensures forall i :: 0 <= i < |protos| ==> protos[i].id in m
    ensures forall i :: IsLastWithId(protos, i) ==> m[protos[i].id] == nameResolver(protos[i].nameIndex)
  {
    if |protos| == 0 then map[]
    else
      var init, last := protos[..|protos| - 1], protos[|protos| - 1];
      var m := TypeParametersById(nameResolver, init)[last.id := nameResolver(last.nameIndex)];
      TypeParametersByIdStep(nameResolver, protos, TypeParametersById(nameResolver, init));
      m
  }

  /** Adding the last proto to the map of the others keeps the three facts above. */
  lemma TypeParametersByIdStep(nameResolver: NameResolver, protos: seq<TypeParameterProto>, mInit: map<int, Name>)
    requires |protos| > 0
    requires forall id :: id in mInit <==> Declares(protos[..|protos| - 1], id)
    requires forall i :: IsLastWithId(protos[..|protos| - 1], i) ==>
      protos[i].id in mInit && mInit[protos[i].id] == nameResolver(protos[i].nameIndex)
    ensures var m := mInit[protos[|protos| - 1].id := nameResolver(protos[|protos| - 1].nameIndex)];
      (forall id :: id in m <==> Declares(protos, id)) &&
      (forall i :: 0 <= i < |protos| ==> protos[i].id in m) &&
      (forall i :: IsLastWithId(protos, i) ==> m[protos[i].id] == nameResolver(protos[i].nameIndex))
  {
  }

  /** Two resolvers that agree on the name indices of a list build the same map. */
  lemma {:induction false} TypeParametersByIdAgree(r1: NameResolver, r2: NameResolver, protos: seq<TypeParameterProto>)
    requires forall i :: 0 <= i < |protos| ==> r1(protos[i].nameIndex) == r2(protos[i].nameIndex)
    ensures TypeParametersById(r1, protos) == TypeParametersById(r2, protos)
  {
    if |protos| > 0 {
      TypeParametersByIdAgree(r1, r2, protos[..|protos| - 1]);
    }
  }

  /**
   * A scope of type parameters: the empty root, or a node with its own
   * id-to-name map and the enclosing scope.
   */
  datatype TypeParameters =
    | EmptyTypeParameters
    | TypeParametersImpl(typeParametersById: map<int, Name>, parent: TypeParameters)
  {
    /** Some scope on the chain from this one to the root declares the id. */
    ghost predicate DeclaresOnChain(id: int) {
      match this
      case EmptyTypeParameters => false
      case TypeParametersImpl(byId, parent) => id in byId || parent.DeclaresOnChain(id)
    }

    /**
     * `get(id)`: the local name if this scope declares the id, otherwise the
     * parent's answer; the empty root faults for every id.
     */
    function Get(id: int): (r: Result<Name, LookupError>)
      ensures r.Success? <==> DeclaresOnChain(id)
      ensures r.Failure? ==> r.error == UnknownTypeParameter(id)
      ensures TypeParametersImpl? && id in typeParametersById ==> r == Success(typeParametersById[id])
      ensures TypeParametersImpl? && id !in typeParametersById ==> r == parent.Get(id)
    {
      match this
      case EmptyTypeParameters => Failure(UnknownTypeParameter(id))
      case TypeParametersImpl(byId, parent) =>
        if id in byId then Success(byId[id]) else parent.Get(id)
    }

    /**
     * `child(nameResolver, innerTypeParameters)`: a new scope whose parent is
     * this one. Ids of the inner list resolve to their names through the
     * given resolver (the last proto of an id wins); every other id resolves
     * exactly as in this scope.
     */
    function Child(nameResolver: NameResolver, innerTypeParameters: seq<TypeParameterProto>): (r: TypeParameters)
      ensures r.TypeParametersImpl? && r.parent == this
      ensures forall i :: IsLastWithId(innerTypeParameters, i) ==>
        r.Get(innerTypeParameters[i].id) == Success(nameResolver(innerTypeParameters[i].nameIndex))
      ensures forall id :: !Declares(innerTypeParameters, id) ==> r.Get(id) == Get(id)
    {
      TypeParametersImpl(TypeParametersById(nameResolver, innerTypeParameters), this)
    }
  }

  /** A lookup on the empty root scope faults, whatever the id. */
  lemma EmptyScopeFaults(id: int)
    ensures EmptyTypeParameters.Get(id) == Failure(UnknownTypeParameter(id))
  {
  }

  /**
   * An id declared by both an inner and an outer scope resolves to the inner
   * declaration: inner type parameters shadow outer ones.
   */
  lemma {:induction false} InnerShadowsOuter(outer: TypeParameters, r: NameResolver, inner: seq<TypeParameterProto>, i: int)
    requires IsLastWithId(inner, i) && outer.DeclaresOnChain(inner[i].id)
    ensures outer.Get(inner[i].id).Success?
    ensures outer.Child(r, inner).Get(inner[i].id) == Success(r(inner[i].nameIndex))
  {
  }

  /**
   * Provider of qualified member names: `fqName` is the qualified name of the
   * declaration the walk is in.
   */
  datatype MemberFqNameProvider = MemberFqNameProvider(fqName: FqName)
  {
    /** `getMemberFqName(name)`: the member's name one segment below `fqName`. */
    function GetMemberFqName(name: Name): (r: FqName)
      ensures |r| == |fqName| + 1 && r[..|fqName|] == fqName && r[|fqName|] == name
    {
      FqChild(fqName, name)
    }

    /**
     * `child(name)`: this same provider when there is no name or the name is
     * the synthetic class-object name; otherwise a provider one segment
     * deeper, whose `fqName` is `getMemberFqName(name)`.
     */
    function Child(name: Option<Name>, isClassObjectName: Name -> bool): (r: MemberFqNameProvider)
      ensures name.None? || isClassObjectName(name.value) ==> r == this
      ensures name.Some? && !isClassObjectName(name.value) ==>
        r.fqName == GetMemberFqName(name.value) && |r.fqName| == |fqName| + 1
    {
      if name.None? || isClassObjectName(name.value) then this
      else MemberFqNameProvider(FqChild(fqName, name.value))
    }
  }

  /**
   * The shared components: the finder of serialized class data (foreign,
   * kept opaque as F) and the annotation loader.
   */
  datatype ClsStubBuilderComponents<F> =
    ClsStubBuilderComponents(classDataFinder: F, annotationLoader: AnnotationLoaderForStubBuilder)
  {
    /**
     * `createContext(nameResolver, packageFqName)`: the root context of a
     * package, which names members below the package and in which no type
     * parameter is in scope.
     */
    function CreateContext(nameResolver: NameResolver, packageFqName: FqName): (r: ClsStubBuilderContext<F>)
      ensures r.components == this && r.nameResolver == nameResolver
      ensures r.memberFqNameProvider.fqName == packageFqName
      ensures r.typeParameters == EmptyTypeParameters
      ensures forall id :: r.typeParameters.Get(id) == Failure(UnknownTypeParameter(id))
    {
      ClsStubBuilderContext(this, nameResolver, MemberFqNameProvider(packageFqName), EmptyTypeParameters)
    }
  }

  /** The context bundle carried down the stub-building walk. */
  datatype ClsStubBuilderContext<F> = ClsStubBuilderContext(
    components: ClsStubBuilderComponents<F>,
    nameResolver: NameResolver,
    memberFqNameProvider: MemberFqNameProvider,
    typeParameters: TypeParameters)
  {
    /**
     * `child(typeParameterList, name)`: the context of a nested declaration.
     * Components and name table stay; the name path advances by `name`; the
     * new type-parameter scope sits on top of the current one and names its
     * parameters through the CURRENT name table.
     */
    function Child(typeParameterList: seq<TypeParameterProto>, name: Option<Name>, isClassObjectName: Name -> bool)
      : (r: ClsStubBuilderContext<F>)
      ensures r.components == components && r.nameResolver == nameResolver
      ensures r.memberFqNameProvider == memberFqNameProvider.Child(name, isClassObjectName)
      ensures r.typeParameters.TypeParametersImpl? && r.typeParameters.parent == typeParameters
      ensures forall i :: IsLastWithId(typeParameterList, i) ==>
        r.typeParameters.Get(typeParameterList[i].id) == Success(nameResolver(typeParameterList[i].nameIndex))
      ensures forall id :: !Declares(typeParameterList, id) ==> r.typeParameters.Get(id) == typeParameters.Get(id)
    {
      ClsStubBuilderContext(
        components,
        nameResolver,
        memberFqNameProvider.Child(name, isClassObjectName),
        typeParameters.Child(nameResolver, typeParameterList))
    }

    /**
     * `child(nameResolver)`: the same declaration read against another name
     * table; only the table changes.
     */
    function ChildWithNameResolver(newNameResolver: NameResolver): (r: ClsStubBuilderContext<F>)
      ensures r.nameResolver == newNameResolver
      ensures r.components == components
      ensures r.memberFqNameProvider == memberFqNameProvider && r.typeParameters == typeParameters
    {
      ClsStubBuilderContext(components, newNameResolver, memberFqNameProvider, typeParameters)
    }
  }

  /**
   * The two derivations commute on everything but the names of the new type
   * parameters, and commute outright when the two name tables agree on the
   * name indices of the list.
   */
  lemma DerivationsCommute<F>(
    ctx: ClsStubBuilderContext<F>, list: seq<TypeParameterProto>, name: Option<Name>,
    isClassObjectName: Name -> bool, newNameResolver: NameResolver)
    ensures
      var a := ctx.Child(list, name, isClassObjectName).ChildWithNameResolver(newNameResolver);
      var b := ctx.ChildWithNameResolver(newNameResolver).Child(list, name, isClassObjectName);
      && a.components == b.components
      && a.nameResolver == b.nameResolver == newNameResolver
      && a.memberFqNameProvider == b.memberFqNameProvider
      && a.typeParameters.parent == b.typeParameters.parent == ctx.typeParameters
      && ((forall i :: 0 <= i < |list| ==> newNameResolver(list[i].nameIndex) == ctx.nameResolver(list[i].nameIndex))
          ==> a == b)
  {
    if forall i :: 0 <= i < |list| ==> newNameResolver(list[i].nameIndex) == ctx.nameResolver(list[i].nameIndex) {
      TypeParametersByIdAgree(newNameResolver, ctx.nameResolver, list);
    }
  }

  /**
   * The order of the derivations matters: a scope built before the table is
   * swapped names its parameters through the old table, one built after
   * through the new table.
   */
  lemma DerivationOrderMatters<F>(ctx: ClsStubBuilderContext<F>, list: seq<TypeParameterProto>, name: Option<Name>,
                                  isClassObjectName: Name -> bool, newNameResolver: NameResolver, i: int)
    requires IsLastWithId(list, i)
    ensures
      var a := ctx.Child(list, name, isClassObjectName).ChildWithNameResolver(newNameResolver);
      var b := ctx.ChildWithNameResolver(newNameResolver).Child(list, name, isClassObjectName);
      && a.typeParameters.Get(list[i].id) == Success(ctx.nameResolver(list[i].nameIndex))
      && b.typeParameters.Get(list[i].id) == Success(newNameResolver(list[i].nameIndex))
  {
  }

  /** One pair of disagreeing tables for which the two orders give different names. */
  lemma DerivationOrderExample<F>(components: ClsStubBuilderComponents<F>)
    ensures
      var ctx := components.CreateContext(_ => "T", []);
      var list := [TypeParameterProto(0, 7)];
      var a := ctx.Child(list, None, _ => false).ChildWithNameResolver(_ => "U");
      var b := ctx.ChildWithNameResolver(_ => "U").Child(list, None, _ => false);
      a.typeParameters.Get(0) == Success("T") && b.typeParameters.Get(0) == Success("U")
  {
    var list := [TypeParameterProto(0, 7)];
    assert IsLastWithId(list, 0);
  }

  /**
   * Two nested scopes: S0 declares id 0 as "T", S1 inside it declares id 1
   * as "R". S1 resolves both ids; S0 faults on id 1.
   */
  lemma NestedScopesExample()
    ensures
      var r: NameResolver := i => if i == 0 then "T" else "R";
      var s0 := EmptyTypeParameters.Child(r, [TypeParameterProto(0, 0)]);
      var s1 := s0.Child(r, [TypeParameterProto(1, 1)]);
      && s1.Get(0) == Success("T")
      && s1.Get(1) == Success("R")
      && s0.Get(1) == Failure(UnknownTypeParameter(1))
  {
    var r: NameResolver := i => if i == 0 then "T" else "R";
    var l0, l1 := [TypeParameterProto(0, 0)], [TypeParameterProto(1, 1)];
    assert IsLastWithId(l0, 0) && IsLastWithId(l1, 0);
    assert !Declares(l1, 0) && !Declares(l0, 1);
  }

  /** The caller's mutable list of annotation class ids. */
  class ClassIdList {
    var elements: seq<ClassId>

    constructor ()
      ensures elements == []
    {
      elements := [];
    }
  }

  /** The visitor of an annotation's arguments (foreign); kept as an opaque handle. */
  datatype AnnotationArgumentVisitor = AnnotationArgumentVisitor(handle: nat)

  /**
   * The annotation-and-constant loader of the stub builder: it records the
   * class id of every annotation and loads nothing else.
   */
  class AnnotationLoaderForStubBuilder {

    constructor ()
    {
    }

    /** `loadConstant`: constants are never loaded for stubs. */
    function LoadConstant<V>(desc: string, initializer: V): (r: Option<()>)
      ensures r == None
    {
      None
    }

    /**
     * `loadAnnotation`: appends the annotation class id to the caller's list
     * and returns no argument visitor.
     */
    method LoadAnnotation(annotationClassId: ClassId, result: ClassIdList) returns (visitor: Option<AnnotationArgumentVisitor>)
      modifies result
      ensures result.elements == old(result.elements) + [annotationClassId]
      ensures visitor == None
    {
      result.elements := result.elements + [annotationClassId];
      visitor := None;
    }
  }
}
