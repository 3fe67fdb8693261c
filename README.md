# Decompiler stub-builder context and flexible-type helpers, modelled in Dafny

This project models two small pieces of the Kotlin IDE plugin.

**The stub builder's context** (`ClsStubBuilderContext.kt`). This is what the
decompiler carries down while it rebuilds declaration stubs from compiled
class metadata. It has four parts:

- the chain of type-parameter scopes (`EmptyTypeParameters`,
  `TypeParametersImpl`);
- the provider of qualified member names (`MemberFqNameProvider`);
- the context bundle (`ClsStubBuilderContext`), together with
  `createContext` and the two private `child` derivations;
- the annotation loader: it records annotation class ids and loads no
  constants.

All of it except the loader is immutable. The model therefore uses
datatypes and functions. The loader appends to the caller's mutable list, so
that list is a class and `LoadAnnotation` is a method that `modifies` it.

**The IDE type helpers** (`TypeUtils.kt`):

- `approximateFlexibleTypes`, which replaces platform types `T!`
  throughout a type tree by a canonical bound;
- `getAllReferencedTypes`, which collects a type and every nested argument
  type into an insertion-ordered set;
- the three-way `nullability` classification.

Approximation and nullability are pure functions. `getAllReferencedTypes`
fills a `LinkedHashSet` in place, so it is a method with a loop over the
arguments, and the set is modelled as the class `LinkedTypeSet`.

Files:

- `wrappers.dfy`: `Option` and `Result`;
- `names.dfy`: `Name`, `FqName` (one string per segment; the root is the
  empty sequence) and `ClassId`;
- `stub_builder_context.dfy`: module `StubBuilderContext`;
- `types.dfy`: module `Types`, the compiler's types as the helpers see them;
- `type_utils.dfy`: module `TypeUtils`.

Modelling decisions:

- **Type shape.** A type is `Dynamic`, `Simple(SimpleType)` or
  `Flexible(lower, upper, readOnlyAnn, notNullAnn)`.
  - Both bounds of a flexible type are simple types.
  - The two flags stand for the read-only and not-null marker annotations
    that `isMarkedReadOnly` and `isMarkedNotNull` look for
    (TypeUtils.kt:69-70). The model reads them with `IsMarkedReadOnly` and
    `IsMarkedNotNull`.
- **Arguments of a flexible type.** A flexible type's arguments are those of
  its lower bound: the compiler's flexible types delegate to their lower
  bound. `getAllReferencedTypes` walks these arguments.
- **Foreign tests as parameters.** Two tests live in code outside this
  model, so each is a function-valued parameter:
  - the collection-class mapping's `isMutableCollection`
    (`isMutableCollection: FqName -> bool`);
  - `SpecialNames.isClassObjectName` (`isClassObjectName: Name -> bool`).
- **Name table.** A `NameResolver` (name index to name) is a total function.
- **Serialized type parameters.** A serialized type parameter is reduced to
  `TypeParameterProto(id, nameIndex)`.
- **The lookup fault.** The fault of the empty scope is the value
  `Failure(UnknownTypeParameter(id))`, not an exception.
- **Building the id map.** The map built by `map { ... }.toMap()` keeps the
  last pair for an id that occurs twice.
- **Type equality** in `LinkedTypeSet` is structural equality of the
  datatype.
- **Dynamic and nullability.** The nullability queries treat the dynamic
  type as the flexible type `Nothing..Any?`, which is how the compiler
  builds it. `nullability` therefore calls it FLEXIBLE.
  `approximateFlexibleTypes` tests for `dynamic` before it tests for
  flexibility, and returns it unchanged.

Code comment versus code: the comment at TypeUtils.kt:49 gives
`Foo<(Mutable)Collection<T>!>! -> Foo<Collection<T>>?`. The code does
something else for a nested collection without the read-only marker. It
picks the lower bound and makes it not-null, which gives
`Foo<MutableCollection<T>>?`. The model follows the code.
`TypeUtils.PlatformCollectionExamples` proves what the code yields.

## Model

| member | source | states |
|---|---|---|
| `StubBuilderContext.TypeParametersById` | idea/idea-analysis/src/org/jetbrains/jet/plugin/decompiler/stubBuilder/ClsStubBuilderContext.kt:68 | The map built from a proto list has exactly the ids the list declares as keys. Each id maps to the name, through the given resolver, of the LAST proto with that id. |
| `StubBuilderContext.TypeParametersByIdAgree` | idea/idea-analysis/src/org/jetbrains/jet/plugin/decompiler/stubBuilder/ClsStubBuilderContext.kt:68 | Two name resolvers that agree on the name indices of a list build the same map. |
| `StubBuilderContext.TypeParameters.Get` | idea/idea-analysis/src/org/jetbrains/jet/plugin/decompiler/stubBuilder/ClsStubBuilderContext.kt:59-71 | A local declaration gives the local name; otherwise the answer is the parent's. A lookup succeeds exactly when some scope on the chain declares the id. Every failure is "unknown type parameter" for that same id. |
| `StubBuilderContext.TypeParameters.Child` | idea/idea-analysis/src/org/jetbrains/jet/plugin/decompiler/stubBuilder/ClsStubBuilderContext.kt:55-56 | The new scope's parent is the receiver. Each id of the inner list resolves through the given resolver to the name of its last proto. Every other id resolves exactly as in the receiver. |
| `StubBuilderContext.EmptyScopeFaults` | idea/idea-analysis/src/org/jetbrains/jet/plugin/decompiler/stubBuilder/ClsStubBuilderContext.kt:59-61 | The empty root scope faults with "unknown type parameter" for every id. |
| `StubBuilderContext.InnerShadowsOuter` | idea/idea-analysis/src/org/jetbrains/jet/plugin/decompiler/stubBuilder/ClsStubBuilderContext.kt:70 | An id that both an outer and an inner scope declare resolves to the inner declaration, although the outer lookup also succeeds. |
| `StubBuilderContext.NestedScopesExample` | idea/idea-analysis/src/org/jetbrains/jet/plugin/decompiler/stubBuilder/ClsStubBuilderContext.kt:63-70 | S0 declares 0 as T. S1, inside S0, declares 1 as R. S1 resolves 0 to T and 1 to R; S0 faults on 1. |
| `Names.FqChild` | idea/idea-analysis/src/org/jetbrains/jet/plugin/decompiler/stubBuilder/ClsStubBuilderContext.kt:46 | `FqName.child(name)`: one segment longer, the parent name is a prefix, and the last segment is the given name. |
| `StubBuilderContext.MemberFqNameProvider.GetMemberFqName` | idea/idea-analysis/src/org/jetbrains/jet/plugin/decompiler/stubBuilder/ClsStubBuilderContext.kt:46 | The member's qualified name is the provider's name with the member's name appended as one more segment. |
| `StubBuilderContext.MemberFqNameProvider.Child` | idea/idea-analysis/src/org/jetbrains/jet/plugin/decompiler/stubBuilder/ClsStubBuilderContext.kt:48-49 | With no name or the class-object name, the result is the same provider. Otherwise its name is `getMemberFqName(name)`, exactly one segment longer. |
| `StubBuilderContext.ClsStubBuilderComponents.CreateContext` | idea/idea-analysis/src/org/jetbrains/jet/plugin/decompiler/stubBuilder/ClsStubBuilderContext.kt:37-42 | The root context keeps the components and the name table. It names members below the package, and its scope is empty: every type-parameter lookup faults. |
| `StubBuilderContext.ClsStubBuilderContext.Child` | idea/idea-analysis/src/org/jetbrains/jet/plugin/decompiler/stubBuilder/ClsStubBuilderContext.kt:80-87 | Components and name table are kept, and the name path advances by `name`. The new scope sits on the current one: the new parameters are named through the CURRENT table, and other ids resolve as before. |
| `StubBuilderContext.ClsStubBuilderContext.ChildWithNameResolver` | idea/idea-analysis/src/org/jetbrains/jet/plugin/decompiler/stubBuilder/ClsStubBuilderContext.kt:89-96 | Only the name table changes. Components, name provider and type-parameter scope are unchanged. |
| `StubBuilderContext.DerivationsCommute` | idea/idea-analysis/src/org/jetbrains/jet/plugin/decompiler/stubBuilder/ClsStubBuilderContext.kt:80-96 | Either order of the two derivations gives the same components, table, name path and parent scope. The two orders give identical contexts when the tables agree on the list's name indices. |
| `StubBuilderContext.DerivationOrderMatters` | idea/idea-analysis/src/org/jetbrains/jet/plugin/decompiler/stubBuilder/ClsStubBuilderContext.kt:85 | For any context, list, name and replacement table: a scope built before the table is swapped resolves each listed id (its last proto) through the old table, and one built after resolves it through the new table. |
| `StubBuilderContext.DerivationOrderExample` | idea/idea-analysis/src/org/jetbrains/jet/plugin/decompiler/stubBuilder/ClsStubBuilderContext.kt:85 | For one pair of disagreeing tables (`"T"` and `"U"` for every index) the two orders give different names for the same id. |
| `StubBuilderContext.AnnotationLoaderForStubBuilder.LoadConstant` | idea/idea-analysis/src/org/jetbrains/jet/plugin/decompiler/stubBuilder/ClsStubBuilderContext.kt:103 | No constant is ever loaded: the result is always null. |
| `StubBuilderContext.AnnotationLoaderForStubBuilder.LoadAnnotation` | idea/idea-analysis/src/org/jetbrains/jet/plugin/decompiler/stubBuilder/ClsStubBuilderContext.kt:105-108 | The caller's list becomes its old contents followed by the annotation class id, and no argument visitor is returned. |
| `Types.MakeNullableAsSpecified` | idea/ide-common/src/org/jetbrains/jet/plugin/util/TypeUtils.kt:54 | The nullability marker is set as requested; constructor, arguments and annotations are unchanged. |
| `Types.MakeNotNullable` | idea/ide-common/src/org/jetbrains/jet/plugin/util/TypeUtils.kt:58 | The nullability marker is cleared; everything else is unchanged. |
| `Types.Arguments` | idea/ide-common/src/org/jetbrains/jet/plugin/util/TypeUtils.kt:77 | `getArguments()`: a simple type's arguments, a flexible type's lower-bound arguments, none for a dynamic type; the argument list is strictly smaller than the type, which is what makes the recursive walks terminate. |
| `TypeUtils.IsMarkedReadOnly` | idea/ide-common/src/org/jetbrains/jet/plugin/util/TypeUtils.kt:69 | True exactly when the type's own annotations carry the read-only marker; a flexible type's marker is its own, not its bounds'. The dynamic type carries none. |
| `TypeUtils.IsMarkedNotNull` | idea/ide-common/src/org/jetbrains/jet/plugin/util/TypeUtils.kt:70 | True exactly when the type's own annotations carry the not-null marker; the dynamic type carries none. |
| `TypeUtils.IsCollectionBound` | idea/ide-common/src/org/jetbrains/jet/plugin/util/TypeUtils.kt:46-47 | The lower bound is declared by a class, and the collection mapping calls that class a mutable collection. |
| `TypeUtils.ApproximateFlexibleTypes` | idea/ide-common/src/org/jetbrains/jet/plugin/util/TypeUtils.kt:42-67 | Only a dynamic input gives a dynamic result, and a dynamic type is returned unchanged. No flexible node is left anywhere in the result. A simple input keeps its constructor, annotations, nullability marker, argument count and projection kinds. |
| `TypeUtils.ApproximateArguments` | idea/ide-common/src/org/jetbrains/jet/plugin/util/TypeUtils.kt:64 | One result argument per argument, with the same projection kinds, and no flexible node in any result argument. |
| `TypeUtils.ApproximateArgumentsPointwise` | idea/ide-common/src/org/jetbrains/jet/plugin/util/TypeUtils.kt:64 | Each result argument is its argument's type approximated with `outermost = false`, under the same projection kind. |
| `TypeUtils.ApproximateSimple` | idea/ide-common/src/org/jetbrains/jet/plugin/util/TypeUtils.kt:60-66 | Non-flexible input: same constructor, annotations, nullability marker, argument count and projection kinds. Each argument type becomes `approximateFlexibleTypes(arg, false)`. |
| `TypeUtils.ApproximateFlexible` | idea/ide-common/src/org/jetbrains/jet/plugin/util/TypeUtils.kt:44-58 | Mutable-collection lower bound: the chosen bound is the upper bound if marked read-only, else the lower bound, with nullability `outermost`. Otherwise: the upper bound when `outermost`, else the lower bound, with its own nullability. The result has the bound's constructor and annotations and its approximated arguments. The not-null marker clears nullability. |
| `TypeUtils.ApproximateReadOnlyCollection` | idea/ide-common/src/org/jetbrains/jet/plugin/util/TypeUtils.kt:46-58 | A read-only-marked platform collection becomes exactly its upper bound, with nullability `outermost` and not-null marker absent, provided the bound holds no flexible type. |
| `TypeUtils.ApproximateIdentity` | idea/ide-common/src/org/jetbrains/jet/plugin/util/TypeUtils.kt:60-66 | A type with no flexible node anywhere is returned unchanged. |
| `TypeUtils.ApproximateIdempotent` | idea/ide-common/src/org/jetbrains/jet/plugin/util/TypeUtils.kt:42-67 | Approximating an approximated type, with either value of `outermost`, changes nothing. |
| `TypeUtils.PlatformClassExamples` | idea/ide-common/src/org/jetbrains/jet/plugin/util/TypeUtils.kt:50-51 | `Foo! -> Foo?` and `Foo<Bar!>! -> Foo<Bar>?`. |
| `TypeUtils.PlatformCollectionExamples` | idea/ide-common/src/org/jetbrains/jet/plugin/util/TypeUtils.kt:48-49 | `(Mutable)Collection<T>! -> MutableCollection<T>?`. Nested without a read-only marker: `Foo<(Mutable)Collection<T>!>! -> Foo<MutableCollection<T>>?`. |
| `TypeUtils.DepthFirstOrder` | idea/ide-common/src/org/jetbrains/jet/plugin/util/TypeUtils.kt:75-78 | The pre-order walk starts with the type itself. |
| `TypeUtils.DepthFirstOrderReaches` | idea/ide-common/src/org/jetbrains/jet/plugin/util/TypeUtils.kt:75-78 | The walk visits exactly the types reachable from the root through argument types. |
| `TypeUtils.InsertAllNoDuplicates` | idea/ide-common/src/org/jetbrains/jet/plugin/util/TypeUtils.kt:73-76 | Adding to a set without repeats never creates a repeat. |
| `TypeUtils.InsertAllOrder` | idea/ide-common/src/org/jetbrains/jet/plugin/util/TypeUtils.kt:73-76 | Newly added elements stand in the order of their first occurrence in what was added. |
| `TypeUtils.LinkedTypeSet.Add` | idea/ide-common/src/org/jetbrains/jet/plugin/util/TypeUtils.kt:76 | The element is appended exactly when it was absent, and the result says whether it was. |
| `TypeUtils.AddType` | idea/ide-common/src/org/jetbrains/jet/plugin/util/TypeUtils.kt:75-78 | The set becomes its old contents with every type of the type's pre-order walk added in turn. |
| `TypeUtils.GetAllReferencedTypes` | idea/ide-common/src/org/jetbrains/jet/plugin/util/TypeUtils.kt:72-82 | The result holds no repeats and starts with the root. It contains exactly the types reachable from the root and is closed under taking argument types. It lists them in order of first visit by the pre-order walk. |
| `TypeUtils.IsNullabilityFlexible` | idea/ide-common/src/org/jetbrains/jet/plugin/util/TypeUtils.kt:92 | A simple type is never nullability-flexible; the dynamic type always is; a flexible type is when its bounds' nullability markers differ, so one of them is nullable. |
| `TypeUtils.IsNullableType` | idea/ide-common/src/org/jetbrains/jet/plugin/util/TypeUtils.kt:93 | A simple type is nullable when marked so; a flexible type when either bound is, in particular when its upper bound is; every nullability-flexible type is nullable. |
| `TypeUtils.Nullability` | idea/ide-common/src/org/jetbrains/jet/plugin/util/TypeUtils.kt:84-96 | FLEXIBLE iff the type is nullability-flexible. Otherwise NULLABLE iff it is nullable, and NOT_NULL otherwise. The three cases are exclusive. |
| `TypeUtils.NullabilityOfFlexible` | idea/ide-common/src/org/jetbrains/jet/plugin/util/TypeUtils.kt:92 | A flexible type is FLEXIBLE exactly when its bounds differ in nullability. With equal bounds it is NULLABLE or NOT_NULL according to that nullability. |
| `TypeUtils.NullabilityOfApproximation` | idea/ide-common/src/org/jetbrains/jet/plugin/util/TypeUtils.kt:90-96 | An approximated non-dynamic type is never FLEXIBLE; its nullability is its nullability marker. |
| `TypeUtils.NullabilityOfOutermostPlatformType` | idea/ide-common/src/org/jetbrains/jet/plugin/util/TypeUtils.kt:50 | At the outermost level, a non-collection platform type without a not-null marker becomes NULLABLE exactly when its upper bound is nullable. |

## Left out

- Navigation helpers (DecompiledNavigationUtils.java): IDE file-system and PSI plumbing over foreign descriptor APIs, with no logic of this core.
- The codegen fixtures under compiler/testData: reflection tests, not part of this core.
- `makeNullable`, `makeNotNullable`, `supertypes`, `isUnit`, `isAny` (TypeUtils.kt:34-40): one-line delegations to the compiler's `TypeUtils` and `KotlinBuiltIns`. Only `makeNotNullable` is modelled, as clearing the nullability marker of a simple type.
- The error member scope attached to every approximated type (TypeUtils.kt:65): a foreign object with no observable shape here, so the model has no member-scope field.
- Star projections: not represented; `Types.Variance` has no star kind. The program's approximation turns `*` into an `out` projection of the parameter's bound, because a star projection reports the `out` kind and the bound as its type (TypeUtils.kt:64). Writing a star projection as an `out` projection of its bound therefore gives what the approximation produces; only the "is a star" distinction is lost.
- `TypeUtils.GetAllReferencedTypes`: the compiler's type equality is foreign and is replaced by structural equality of the datatype. Types that differ only in the read-only or not-null marker flags, or in a flexible node's own flags, are distinct elements in the model. The program's `LinkedHashSet` may treat them as one element.
- `TypeUtils.IsNullableType`: does not model the rule that a type-parameter type whose upper bound is nullable is nullable, because that rule reads foreign descriptors. A type over such a parameter is NOT_NULL in the model where the program says NULLABLE. The omission also reaches FLEXIBLE; see the next line.
- `TypeUtils.IsNullabilityFlexible`: compares only the nullability markers of the two bounds (`lower.nullable != upper.nullable`). The program compares the bounds' nullability as the compiler's `isNullableType` decides it, including the type-parameter rule above. So `TypeUtils.Nullability` and `TypeUtils.NullabilityOfFlexible` call a platform type `T..T?` over a type parameter with a nullable bound FLEXIBLE, where the program calls it NULLABLE.
- The collection-class mapping and `SpecialNames.isClassObjectName`: these are parameters, not defined here.
- The name table's internals and the decoding of serialized type parameters: a total function and `(id, nameIndex)` pairs. The table's own failure on a bad index is not modelled.
- The loader's parent class, lock-free storage manager, class finder and error reporter (ClsStubBuilderContext.kt:98-102): foreign library code. The loader keeps none of them, and the class-data finder is the opaque type parameter `F`.
- `StubBuilderContext.TypeParameters.Get`: the fault's message text is not modelled. The fault carries only the id.
- Cycles in type graphs: datatype values are finite trees, so the referenced-type walk always terminates.
- Concurrency and sharing of the components between walks: nothing in this core is concurrent.
