# Class-file structure loading and the JS dead-code union-find, in Dafny

This project models two parts of the Kotlin compiler.

The first is the loader that builds the Java structure model (classes, members, type parameters and types) straight from compiled `.class` files. It has five parts:

- a scoped classifier resolver, with the heuristic that turns internal names (`a/b/Outer$Inner`) into qualified names;
- a recursive-descent parser of JVM generic signatures and descriptors (section 4.7.9.1 and sections 4.3.2–4.3.3 of the Java Virtual Machine Specification, Java SE 8 edition), which reads through a character cursor;
- the construction of methods and constructors from a signature or a descriptor;
- the push-style class builder that the class reader drives;
- the annotation collectors and the `ClassId` of an annotation.

It also includes the parser of the canonical text of a Java type (`a.b.C<D, ? extends E>`), which builds the same type shapes.

The second part is the union-find over `FqnRoot` nodes that the JavaScript dead-code eliminator uses. Besides union-find, it covers qualified names built from a root and a path, the multimap helper, and the loop that records every parent → child edge of a qualified name.

One Dafny module stands for each source file. The three smaller modules `Wrappers`, `Sequences` and `CharacterIterators` are shared by the others:

- `Wrappers` holds `Option` and `Result`.
- `Sequences` holds sequence helpers.
- `CharacterIterators` holds `java.text.StringCharacterIterator` as a cursor over a string, where `DONE` is `￿`.

There is also `FqNames`, which models the `FqName`/`ClassId` operations the core calls, on strings. The source files of `FqName` and `ClassId` are not part of this model.

Code that changes state is modelled as Dafny classes with methods. Each method is proved against a specification function of its inputs and old state:

- `ClassifierResolver`;
- the `SignatureParsingComponent` cursor parser;
- `BinaryJavaClass`;
- `AnnotationsCollectorMethodVisitor`;
- the canonical-text parser's index loops;
- the `FqnRoot` arena.

The lemmas are stated about those specification functions.

A few modelling choices:

- **Exceptions.** An exception the source throws is a `Failure` value. Kotlin `assert` is taken to be enabled.
- **Lazy references.** A lazily resolved classifier reference is a `Deferred(scope, lookup)` value. It is resolved on query against the scope's bindings at that time.
- **The Object sentinel.** The `java.lang.Object` sentinel, which the source compares by identity, is its own constructor `JavaLangObject(scope)`.
- **`FqnRoot` nodes.** `FqnRoot` objects are indices into one arena object of parallel sequences: parent, rank, local names and qualifiers. Insertion-ordered sets are sequences without duplicates, because the iteration order of `qualifiersImpl` decides which qualifier paths are visited first.

Two behaviours of the code the model keeps:

- An unparsable member signature or descriptor makes the whole class fail to load. It is not replaced by an error type: `visitMethod` and `visitField` let the `ClsFormatException` propagate.
- `collectRootFqNames` can never take its `{Fqn(this, [])}` fallback, because it always starts from a fresh visited set (`RootFqNamesStart`).

## Model

| member | source | states |
|---|---|---|
| InternalNames.RewriteSeparators | compiler/frontend.java/src/org/jetbrains/kotlin/load/java/structure/impl/classFiles/ClassifierResolver.kt:39-52 | the `$` pass keeps the length of the name |
| InternalNames.InternalNameToFqName | compiler/frontend.java/src/org/jetbrains/kotlin/load/java/structure/impl/classFiles/ClassifierResolver.kt:36-55 | the converted name has the length of the internal name |
| InternalNames.ConvertInternalNameToFqName | compiler/frontend.java/src/org/jetbrains/kotlin/load/java/structure/impl/classFiles/ClassifierResolver.kt:36-55 | the in-place loop over a character buffer, followed by the `/` replacement, gives exactly the pointwise conversion `InternalNameToFqName` |
| InternalNames.InternalNameToFqNameAt | compiler/frontend.java/src/org/jetbrains/kotlin/load/java/structure/impl/classFiles/ClassifierResolver.kt:42-54 | position p of the result is `.` exactly when the name has `/` there, or a `$` that is not first, not last, not just after `/` and not just before `$`; otherwise the character is kept |
| InternalNames.NoSlashInFqName | compiler/frontend.java/src/org/jetbrains/kotlin/load/java/structure/impl/classFiles/ClassifierResolver.kt:54 | no `/` is left in a converted name |
| InternalNames.NoDollarOnlySlashes | compiler/frontend.java/src/org/jetbrains/kotlin/load/java/structure/impl/classFiles/ClassifierResolver.kt:39-54 | a name without `$` changes only by the `/` → `.` replacement |
| InternalNames.ExampleOuterInner | compiler/frontend.java/src/org/jetbrains/kotlin/load/java/structure/impl/classFiles/ClassifierResolver.kt:44 | `Outer$Inner` becomes `Outer.Inner` |
| InternalNames.ExampleDoubleDollar | compiler/frontend.java/src/org/jetbrains/kotlin/load/java/structure/impl/classFiles/ClassifierResolver.kt:44 | `a/b$$c` becomes `a.b$.c`: only a `$` followed by `$` is protected |
| InternalNames.ExampleLeadingDollar | compiler/frontend.java/src/org/jetbrains/kotlin/load/java/structure/impl/classFiles/ClassifierResolver.kt:44 | a leading `$` is kept: `$Proxy` is unchanged |
| JavaStructure.AsClassifier | compiler/frontend.java/src/org/jetbrains/kotlin/load/java/structure/impl/classFiles/ClassifierResolver.kt:28 | a class found by the external lookup is the classifier, and no class gives no classifier |
| JavaStructure.ClassifierResolver.constructor | compiler/frontend.java/src/org/jetbrains/kotlin/load/java/structure/impl/classFiles/ClassifierResolver.kt:24-27 | the resolver holds the given bindings and lookup function |
| JavaStructure.ClassifierResolver.Resolve | compiler/frontend.java/src/org/jetbrains/kotlin/load/java/structure/impl/classFiles/ClassifierResolver.kt:28 | a bound type parameter wins over the external lookup; a type-parameter result only comes from a binding; the second component is always the queried name |
| JavaStructure.ClassifierResolver.Copy | compiler/frontend.java/src/org/jetbrains/kotlin/load/java/structure/impl/classFiles/ClassifierResolver.kt:30 | a new resolver with equal bindings and the same lookup function |
| JavaStructure.ClassifierResolver.Put | compiler/frontend.java/src/org/jetbrains/kotlin/load/java/structure/impl/classFiles/BinaryJavaClass.kt:121 | the binding of one name is replaced and every other binding is kept |
| JavaStructure.ClassifierResolver.MapInternalNameToFqName | compiler/frontend.java/src/org/jetbrains/kotlin/load/java/structure/impl/classFiles/ClassifierResolver.kt:32 | the qualified name has the length of the internal name and no `/` |
| JavaStructure.ClassifierResolver.ResolveByInternalName | compiler/frontend.java/src/org/jetbrains/kotlin/load/java/structure/impl/classFiles/ClassifierResolver.kt:59 | equals `Resolve` of the converted name, whose text is `InternalNameToFqName(c)` |
| JavaStructure.ResolveDeferred | compiler/frontend.java/src/org/jetbrains/kotlin/load/java/structure/impl/classFiles/SignatureParsingComponent.kt:112 | a deferred type-variable reference resolves under its own name, and a class reference under the converted internal name |
| JavaStructure.ResolveObject | compiler/frontend.java/src/org/jetbrains/kotlin/load/java/structure/impl/classFiles/SignatureParsingComponent.kt:38-39 | the Object sentinel resolves `java.lang.Object` in the component's scope |
| JavaStructure.ForkAndBind | compiler/frontend.java/src/org/jetbrains/kotlin/load/java/structure/impl/classFiles/ClassifierResolver.kt:30 | binding a name in a copy changes nothing the original resolves; the copy resolves that name to the new type parameter and every other name as the original does |
| CharacterIterators.At | compiler/frontend.java/src/org/jetbrains/kotlin/load/java/structure/impl/classFiles/SignatureParsingComponent.kt:57 | past the end the cursor reads `DONE` |
| CharacterIterators.Advance | compiler/frontend.java/src/org/jetbrains/kotlin/load/java/structure/impl/classFiles/SignatureParsingComponent.kt:59 | `next` moves one character forward and stays at the end once there |
| CharacterIterators.Cursor.constructor | compiler/frontend.java/src/org/jetbrains/kotlin/load/java/structure/impl/classFiles/Methods.kt:113 | a new cursor is at index 0 of the text |
| CharacterIterators.Cursor.Next | compiler/frontend.java/src/org/jetbrains/kotlin/load/java/structure/impl/classFiles/SignatureParsingComponent.kt:59 | the cursor moves to `Advance` of its old position |
| SignatureParsing.ScanUntil | compiler/frontend.java/src/org/jetbrains/kotlin/load/java/structure/impl/classFiles/SignatureParsingComponent.kt:57-60 | the first index with a stop character (or the end); nothing before it is a stop character |
| SignatureParsing.Dimensions | compiler/frontend.java/src/org/jetbrains/kotlin/load/java/structure/impl/classFiles/SignatureParsingComponent.kt:187-194 | the number of consecutive `[` from index i; the character after them is not `[` |
| SignatureParsing.WrapArrayDepth | compiler/frontend.java/src/org/jetbrains/kotlin/load/java/structure/impl/classFiles/SignatureParsingComponent.kt:200 | folding n array layers over a type adds exactly n to its array depth |
| SignatureParsing.PrimitiveOf | compiler/frontend.java/src/org/jetbrains/kotlin/load/java/structure/impl/classFiles/SignatureParsingComponent.kt:210-218 | a primitive code gives a primitive type |
| SignatureParsing.PrimitiveCodes | compiler/frontend.java/src/org/jetbrains/kotlin/load/java/structure/impl/classFiles/SignatureParsingComponent.kt:210-218 | a character gives primitive kind k (or void) exactly when it is k's descriptor code: `B C D F I J Z S` and `V` |
| SignatureParsing.VarianceOf | compiler/frontend.java/src/org/jetbrains/kotlin/load/java/structure/impl/classFiles/SignatureParsingComponent.kt:166-185 | one of `+ - * . =` is consumed and any other character is not; the variance is `Star` exactly for `*` |
| SignatureParsing.FoldAllocated | compiler/frontend.java/src/org/jetbrains/kotlin/load/java/structure/impl/classFiles/SignatureParsingComponent.kt:69-83 | once the bounds list exists, every later bound is appended in order |
| SignatureParsing.FoldUnallocated | compiler/frontend.java/src/org/jetbrains/kotlin/load/java/structure/impl/classFiles/SignatureParsingComponent.kt:66-83 | before the list exists, leading Object bounds are dropped; Object comes back first when any other bound follows, and the rest keep their order |
| SignatureParsing.BoundLoopElidesObject | compiler/frontend.java/src/org/jetbrains/kotlin/load/java/structure/impl/classFiles/SignatureParsingComponent.kt:66-85 | the bounds loop computes `ElideObjectBound`, the independent definition of Object-bound elision |
| SignatureParsing.ElideSoleObject | compiler/frontend.java/src/org/jetbrains/kotlin/load/java/structure/impl/classFiles/SignatureParsingComponent.kt:73-75 | a sole `java.lang.Object` bound gives no bounds |
| SignatureParsing.ElideKeepsObjectBeforeOthers | compiler/frontend.java/src/org/jetbrains/kotlin/load/java/structure/impl/classFiles/SignatureParsingComponent.kt:77-80 | Object followed by other bounds is kept first, with the others in order |
| SignatureParsing.ElideWithoutLeadingObject | compiler/frontend.java/src/org/jetbrains/kotlin/load/java/structure/impl/classFiles/SignatureParsingComponent.kt:72-82 | bounds that do not start with Object are kept as they are |
| SignatureParsing.WrapArrayScoped | compiler/frontend.java/src/org/jetbrains/kotlin/load/java/structure/impl/classFiles/SignatureParsingComponent.kt:200 | array layers keep a type's references in the same scopes |
| SignatureParsing.TypeVariableRef | compiler/frontend.java/src/org/jetbrains/kotlin/load/java/structure/impl/classFiles/SignatureParsingComponent.kt:96-113 | a type-variable reference consumes at least the `T`, has no arguments, and is deferred to the caller's resolver |
| SignatureParsing.ClassRef | compiler/frontend.java/src/org/jetbrains/kotlin/load/java/structure/impl/classFiles/SignatureParsingComponent.kt:115-147 | a class reference ends just after a `;`, is a classifier type, and refers only to the component's or the caller's scope |
| SignatureParsing.ClassRefLoop | compiler/frontend.java/src/org/jetbrains/kotlin/load/java/structure/impl/classFiles/SignatureParsingComponent.kt:120-137 | the name and argument-group loop ends just after `;`, with a classifier type |
| SignatureParsing.ArgumentGroup | compiler/frontend.java/src/org/jetbrains/kotlin/load/java/structure/impl/classFiles/SignatureParsingComponent.kt:126-129 | the `do … while` element loop ends at a `>` after at least one element |
| SignatureParsing.Element | compiler/frontend.java/src/org/jetbrains/kotlin/load/java/structure/impl/classFiles/SignatureParsingComponent.kt:149-159 | an element consumes at least one character and stays in scope |
| SignatureParsing.TypeString | compiler/frontend.java/src/org/jetbrains/kotlin/load/java/structure/impl/classFiles/SignatureParsingComponent.kt:196-201 | a type string consumes at least one character and stays in scope |
| SignatureParsing.TypeWithoutVarianceAndArray | compiler/frontend.java/src/org/jetbrains/kotlin/load/java/structure/impl/classFiles/SignatureParsingComponent.kt:205-220 | no type exactly when nothing is consumed; a type found is never an array |
| SignatureParsing.TopLevelClassRef | compiler/frontend.java/src/org/jetbrains/kotlin/load/java/structure/impl/classFiles/SignatureParsingComponent.kt:88-94 | no type exactly at a character that is neither `L` nor `T`, consuming nothing; otherwise a classifier type |
| SignatureParsing.Bounds | compiler/frontend.java/src/org/jetbrains/kotlin/load/java/structure/impl/classFiles/SignatureParsingComponent.kt:66-85 | the bounds loop stops at the first character that is not `:`, and consumes something when it starts at `:` |
| SignatureParsing.TypeParameterAt | compiler/frontend.java/src/org/jetbrains/kotlin/load/java/structure/impl/classFiles/SignatureParsingComponent.kt:55-86 | a type parameter consumes at least one character and its bounds stay in scope |
| SignatureParsing.TypeParametersDeclaration | compiler/frontend.java/src/org/jetbrains/kotlin/load/java/structure/impl/classFiles/SignatureParsingComponent.kt:41-53 | without `<` the result is empty and nothing is consumed; otherwise the declaration ends just after a `>` |
| SignatureParsing.TypeParametersLoop | compiler/frontend.java/src/org/jetbrains/kotlin/load/java/structure/impl/classFiles/SignatureParsingComponent.kt:48-50 | the loop ends just after a `>` |
| SignatureParsing.RawBounds | compiler/frontend.java/src/org/jetbrains/kotlin/load/java/structure/impl/classFiles/SignatureParsingComponent.kt:69-83 | the bounds as read, before Object elision, end at or after the start |
| SignatureParsing.BoundsFoldRaw | compiler/frontend.java/src/org/jetbrains/kotlin/load/java/structure/impl/classFiles/SignatureParsingComponent.kt:69-83 | the bounds loop is its list of raw bounds folded through the allocation rule |
| SignatureParsing.AddBound | compiler/frontend.java/src/org/jetbrains/kotlin/load/java/structure/impl/classFiles/SignatureParsingComponent.kt:69-83 | one bound: an Object bound while no list is allocated only sets the flag; the first other bound allocates the list with Object in front when the flag is set; later bounds are appended |
| SignatureParsing.FoldBounds | compiler/frontend.java/src/org/jetbrains/kotlin/load/java/structure/impl/classFiles/SignatureParsingComponent.kt:66-85 | `AddBound` over the bounds in order; `FoldAllocated`, `FoldUnallocated` and `BoundLoopElidesObject` state its result |
| SignatureParsing.TypeParameterBounds | compiler/frontend.java/src/org/jetbrains/kotlin/load/java/structure/impl/classFiles/SignatureParsingComponent.kt:66-85 | a type parameter's bounds are its raw bounds with `ElideObjectBound` applied |
| SignatureParsing.TypeParameterNeedsColon | compiler/frontend.java/src/org/jetbrains/kotlin/load/java/structure/impl/classFiles/SignatureParsingComponent.kt:57-63 | a name that runs to the end without `:` is a `ClsFormatException` |
| SignatureParsing.WithoutSpaces | compiler/frontend.java/src/org/jetbrains/kotlin/load/java/structure/impl/classFiles/SignatureParsingComponent.kt:133-135 | the name with its spaces dropped |
| SignatureParsing.ClassNameStep | compiler/frontend.java/src/org/jetbrains/kotlin/load/java/structure/impl/classFiles/SignatureParsingComponent.kt:133-136 | a name character is appended, except a space, which is dropped |
| SignatureParsing.ClassNameRun | compiler/frontend.java/src/org/jetbrains/kotlin/load/java/structure/impl/classFiles/SignatureParsingComponent.kt:121-137 | a run of name characters appends the run without spaces |
| SignatureParsing.PlainClassRef | compiler/frontend.java/src/org/jetbrains/kotlin/load/java/structure/impl/classFiles/SignatureParsingComponent.kt:115-147 | `L name;` gives the Object sentinel exactly when the space-free name is `java/lang/Object`, and otherwise a reference by internal name without arguments |
| SignatureParsing.TypeStringArrayDepth | compiler/frontend.java/src/org/jetbrains/kotlin/load/java/structure/impl/classFiles/SignatureParsingComponent.kt:187-201 | the array depth of a parsed type string is the number of leading `[` |
| SignatureParsing.PrimitiveDescriptor | compiler/frontend.java/src/org/jetbrains/kotlin/load/java/structure/impl/classFiles/SignatureParsingComponent.kt:205-225 | a one-character primitive descriptor gives that primitive and consumes exactly one character |
| SignatureParsing.ElementOfReference | compiler/frontend.java/src/org/jetbrains/kotlin/load/java/structure/impl/classFiles/SignatureParsingComponent.kt:149-159 | at `L` or `T`, an element is the class or type-variable reference with no variance |
| SignatureParsing.SingleArgumentGroup | compiler/frontend.java/src/org/jetbrains/kotlin/load/java/structure/impl/classFiles/SignatureParsingComponent.kt:126-129 | one element followed by `>` is a group of one |
| SignatureParsing.TypeVariableRefOf | compiler/frontend.java/src/org/jetbrains/kotlin/load/java/structure/impl/classFiles/SignatureParsingComponent.kt:96-113 | `T name;` is the deferred reference by that name, and ends just after `;` |
| SignatureParsing.SpacelessClassRef | compiler/frontend.java/src/org/jetbrains/kotlin/load/java/structure/impl/classFiles/SignatureParsingComponent.kt:115-147 | a space-free `L name;` is the class type of that name |
| SignatureParsing.ClassRefSegment | compiler/frontend.java/src/org/jetbrains/kotlin/load/java/structure/impl/classFiles/SignatureParsingComponent.kt:121-137 | a space-free run of name characters extends the name unchanged |
| SignatureParsing.TypeVariableGroup | compiler/frontend.java/src/org/jetbrains/kotlin/load/java/structure/impl/classFiles/SignatureParsingComponent.kt:123-131 | `<T name;>` adds the group of one deferred type variable |
| SignatureParsing.ClassGroup | compiler/frontend.java/src/org/jetbrains/kotlin/load/java/structure/impl/classFiles/SignatureParsingComponent.kt:123-131 | `<L name;>` adds the group of one class type |
| SignatureParsing.ClassRefEnd | compiler/frontend.java/src/org/jetbrains/kotlin/load/java/structure/impl/classFiles/SignatureParsingComponent.kt:139-146 | at `;`, a name other than `java/lang/Object` gives the reference by internal name whose arguments are the groups flattened in reverse order |
| SignatureParsing.ParameterizedClassRef | compiler/frontend.java/src/org/jetbrains/kotlin/load/java/structure/impl/classFiles/SignatureParsingComponent.kt:115-147 | `L outer<L arg;>;` gives the outer reference with the one argument |
| SignatureParsing.InnerClassArguments | compiler/frontend.java/src/org/jetbrains/kotlin/load/java/structure/impl/classFiles/SignatureParsingComponent.kt:118-146 | `L Outer<TA;>.Inner<TB;>;` gives `Outer.Inner` with arguments `[B, A]`: later groups come first |
| SignatureParsing.SingleTypeParameter | compiler/frontend.java/src/org/jetbrains/kotlin/load/java/structure/impl/classFiles/SignatureParsingComponent.kt:41-53 | `<name bounds>` with one parameter gives that parameter and ends after `>` |
| SignatureParsing.ObjectBoundOnly | compiler/frontend.java/src/org/jetbrains/kotlin/load/java/structure/impl/classFiles/SignatureParsingComponent.kt:72-76 | a sole `:Ljava/lang/Object;` bound reads as no bounds |
| SignatureParsing.SoleObjectBound | compiler/frontend.java/src/org/jetbrains/kotlin/load/java/structure/impl/classFiles/SignatureParsingComponent.kt:66-85 | `<T:Ljava/lang/Object;>` declares T without bounds |
| SignatureParsing.InterfaceBound | compiler/frontend.java/src/org/jetbrains/kotlin/load/java/structure/impl/classFiles/SignatureParsingComponent.kt:66-85 | an empty class bound followed by an interface bound keeps only the interface |
| SignatureParsing.UnterminatedClassRef | compiler/frontend.java/src/org/jetbrains/kotlin/load/java/structure/impl/classFiles/SignatureParsingComponent.kt:139-141 | an `L` reference that reaches the end before `;` is a `ClsFormatException` |
| SignatureParsing.UnterminatedTypeVariableRef | compiler/frontend.java/src/org/jetbrains/kotlin/load/java/structure/impl/classFiles/SignatureParsingComponent.kt:99-107 | a `T` reference that reaches the end before any `;` or `>` is a `ClsFormatException` |
| SignatureParsing.TerminatedTypeVariableRef | compiler/frontend.java/src/org/jetbrains/kotlin/load/java/structure/impl/classFiles/SignatureParsingComponent.kt:100-112 | a `T` reference closed by `;` or `>` is read, ending at or before the character after it |
| SignatureParsing.NoProductionRejected | compiler/frontend.java/src/org/jetbrains/kotlin/load/java/structure/impl/classFiles/SignatureParsingComponent.kt:196-201 | after the dimensions, a character other than `L`, `T` or a primitive code makes the type string a `ClsFormatException` |
| SignatureParsing.ExampleParameterizedType | compiler/frontend.java/src/org/jetbrains/kotlin/load/java/structure/impl/classFiles/SignatureParsingComponent.kt:115-147 | `Ljava/util/List<Ljava/lang/String;>;` is `List` with argument `String`, consuming all 36 characters |
| SignatureParsing.ExampleInnerClassArguments | compiler/frontend.java/src/org/jetbrains/kotlin/load/java/structure/impl/classFiles/SignatureParsingComponent.kt:146 | `Lp/Outer<TA;>.Inner<TB;>;` is `p/Outer.Inner` with arguments `[B, A]` |
| SignatureParsing.ExampleObjectBoundElided | compiler/frontend.java/src/org/jetbrains/kotlin/load/java/structure/impl/classFiles/SignatureParsingComponent.kt:66-85 | `<T:Ljava/lang/Object;>` is `[T]` with no bounds |
| SignatureParsing.ExampleInterfaceBound | compiler/frontend.java/src/org/jetbrains/kotlin/load/java/structure/impl/classFiles/SignatureParsingComponent.kt:69-83 | `<T::Ljava/lang/Runnable;>` is `[T]` bounded by `Runnable` |
| SignatureParsing.ExampleArrayType | compiler/frontend.java/src/org/jetbrains/kotlin/load/java/structure/impl/classFiles/SignatureParsingComponent.kt:196-201 | `[[I` is a two-dimensional int array |
| SignatureParsing.ExampleStarMark | compiler/frontend.java/src/org/jetbrains/kotlin/load/java/structure/impl/classFiles/SignatureParsingComponent.kt:149-185 | `*` is the unbounded wildcard, one character long |
| SignatureParsing.ExamplePlusMark | compiler/frontend.java/src/org/jetbrains/kotlin/load/java/structure/impl/classFiles/SignatureParsingComponent.kt:149-185 | `+I` is the extends wildcard bounded by int |
| SignatureParsing.ExampleMinusMark | compiler/frontend.java/src/org/jetbrains/kotlin/load/java/structure/impl/classFiles/SignatureParsingComponent.kt:149-185 | `-I` is the super wildcard bounded by int |
| SignatureParsing.ExampleEqualsMark | compiler/frontend.java/src/org/jetbrains/kotlin/load/java/structure/impl/classFiles/SignatureParsingComponent.kt:149-185 | `=I` is int itself, the mark consumed |
| SignatureParsing.ExampleNoMark | compiler/frontend.java/src/org/jetbrains/kotlin/load/java/structure/impl/classFiles/SignatureParsingComponent.kt:149-185 | `I` without a mark is int itself |
| SignatureParsing.ExampleUnterminatedClassRef | compiler/frontend.java/src/org/jetbrains/kotlin/load/java/structure/impl/classFiles/SignatureParsingComponent.kt:139-141 | `Ljava/lang/String` without `;` is a `ClsFormatException` |
| SignatureParsing.SignatureParsingComponent.constructor | compiler/frontend.java/src/org/jetbrains/kotlin/load/java/structure/impl/classFiles/SignatureParsingComponent.kt:33-39 | the component's Object sentinel belongs to the given resolver |
| SignatureParsing.SignatureParsingComponent.ParseTypeParametersDeclaration | compiler/frontend.java/src/org/jetbrains/kotlin/load/java/structure/impl/classFiles/SignatureParsingComponent.kt:41-53 | the cursor method gives the result of `TypeParametersDeclaration`, and leaves the cursor at its end index |
| SignatureParsing.SignatureParsingComponent.ParseTypeParameter | compiler/frontend.java/src/org/jetbrains/kotlin/load/java/structure/impl/classFiles/SignatureParsingComponent.kt:55-86 | the cursor method agrees with `TypeParameterAt` on the result and the new position |
| SignatureParsing.SignatureParsingComponent.ParseTopLevelClassRefSignature | compiler/frontend.java/src/org/jetbrains/kotlin/load/java/structure/impl/classFiles/SignatureParsingComponent.kt:88-94 | the cursor method agrees with `TopLevelClassRef` |
| SignatureParsing.SignatureParsingComponent.ParseTypeVariableRefSignature | compiler/frontend.java/src/org/jetbrains/kotlin/load/java/structure/impl/classFiles/SignatureParsingComponent.kt:96-113 | the cursor method agrees with `TypeVariableRef` |
| SignatureParsing.SignatureParsingComponent.ParseParameterizedClassRefSignature | compiler/frontend.java/src/org/jetbrains/kotlin/load/java/structure/impl/classFiles/SignatureParsingComponent.kt:115-147 | the cursor method agrees with `ClassRef` |
| SignatureParsing.SignatureParsingComponent.ParseClassOrTypeVariableElement | compiler/frontend.java/src/org/jetbrains/kotlin/load/java/structure/impl/classFiles/SignatureParsingComponent.kt:149-159 | the cursor method agrees with `Element` |
| SignatureParsing.SignatureParsingComponent.ParseVariance | compiler/frontend.java/src/org/jetbrains/kotlin/load/java/structure/impl/classFiles/SignatureParsingComponent.kt:166-185 | gives the variance of the current character, and advances exactly when `VarianceOf` consumes it |
| SignatureParsing.SignatureParsingComponent.ParseDimensions | compiler/frontend.java/src/org/jetbrains/kotlin/load/java/structure/impl/classFiles/SignatureParsingComponent.kt:187-194 | counts the leading `[` and moves past exactly them |
| SignatureParsing.SignatureParsingComponent.ParseTypeString | compiler/frontend.java/src/org/jetbrains/kotlin/load/java/structure/impl/classFiles/SignatureParsingComponent.kt:196-201 | the cursor method agrees with `TypeString` |
| SignatureParsing.SignatureParsingComponent.MapAsmType | compiler/frontend.java/src/org/jetbrains/kotlin/load/java/structure/impl/classFiles/SignatureParsingComponent.kt:203 | a descriptor is read as a type string from its first character |
| SignatureParsing.SignatureParsingComponent.ParseTypeWithoutVarianceAndArray | compiler/frontend.java/src/org/jetbrains/kotlin/load/java/structure/impl/classFiles/SignatureParsingComponent.kt:205-220 | the cursor method agrees with `TypeWithoutVarianceAndArray` |
| SignatureParsing.SignatureParsingComponent.ParsePrimitiveType | compiler/frontend.java/src/org/jetbrains/kotlin/load/java/structure/impl/classFiles/SignatureParsingComponent.kt:222-225 | consumes one character and gives the primitive type of the kind asked for |
| Methods.FieldDescriptorEnd | compiler/frontend.java/src/org/jetbrains/kotlin/load/java/structure/impl/classFiles/Methods.kt:103 | one field descriptor starting at i ends after i |
| Methods.ArgumentDescriptors | compiler/frontend.java/src/org/jetbrains/kotlin/load/java/structure/impl/classFiles/Methods.kt:103 | the argument descriptors are non-empty and concatenate to exactly the text they were cut from, which ends at `)` or at the end |
| Methods.SplitRoundTrip | compiler/frontend.java/src/org/jetbrains/kotlin/load/java/structure/impl/classFiles/Methods.kt:102-103 | a descriptor is `(` + its argument descriptors + `)` + its return descriptor |
| Methods.SplitMethodDescriptor | compiler/frontend.java/src/org/jetbrains/kotlin/load/java/structure/impl/classFiles/Methods.kt:102-103 | the argument descriptors between `(` and `)` and the return descriptor after `)`; `SplitRoundTrip` states that they put back together give the descriptor |
| Methods.DescriptorTypes | compiler/frontend.java/src/org/jetbrains/kotlin/load/java/structure/impl/classFiles/Methods.kt:103 | one type per argument descriptor, each read as a whole type string; a failure is the failure of some argument |
| Methods.MethodDescription | compiler/frontend.java/src/org/jetbrains/kotlin/load/java/structure/impl/classFiles/Methods.kt:97-106 | the descriptor path has no type parameters; its return type and parameter types are those of the split descriptor |
| Methods.SignatureParameters | compiler/frontend.java/src/org/jetbrains/kotlin/load/java/structure/impl/classFiles/Methods.kt:118-128 | the parameter loop stops at `)` or at the end, keeps the parameters read so far, and reads nothing at `)` |
| Methods.MethodSignature | compiler/frontend.java/src/org/jetbrains/kotlin/load/java/structure/impl/classFiles/Methods.kt:108-134 | no `(` after the type parameters is a `ClsFormatException`; a parsed signature has the declared type parameters and in-scope types |
| Methods.MethodInfoOf | compiler/frontend.java/src/org/jetbrains/kotlin/load/java/structure/impl/classFiles/Methods.kt:61-65 | the generic signature is parsed when the method has one, otherwise the descriptor; `Methods.Create` states the method built from it |
| Methods.UnclosedParameterList | compiler/frontend.java/src/org/jetbrains/kotlin/load/java/structure/impl/classFiles/Methods.kt:124-127 | a parameter list that reaches the end without `)` fails |
| Methods.EmptyParameterList | compiler/frontend.java/src/org/jetbrains/kotlin/load/java/structure/impl/classFiles/Methods.kt:119-131 | `()` gives no parameters, and the return type is read after `)`: the signature parses exactly when that type does |
| Methods.LastNamed | compiler/frontend.java/src/org/jetbrains/kotlin/load/java/structure/impl/classFiles/Methods.kt:69 | the last type parameter with a given name, if any |
| Methods.BindAllLookup | compiler/frontend.java/src/org/jetbrains/kotlin/load/java/structure/impl/classFiles/Methods.kt:69 | after binding by name, a name is bound to its last type parameter of that name; otherwise the old binding stays |
| Methods.BindAll | compiler/frontend.java/src/org/jetbrains/kotlin/load/java/structure/impl/classFiles/Methods.kt:69 | binds each type parameter under its name in order; its meaning is stated by `BindAllLookup` |
| Methods.ResolveBoundTypeParameter | compiler/frontend.java/src/org/jetbrains/kotlin/load/java/structure/impl/classFiles/Methods.kt:69 | after binding, the resolver resolves each parameter's name to the last parameter of that name |
| Methods.ParameterEntries | compiler/frontend.java/src/org/jetbrains/kotlin/load/java/structure/impl/classFiles/Methods.kt:71-82 | one entry per parameter type, except for the first when it is skipped; an entry is vararg exactly when the flag is set and it is the last type |
| Methods.VarargIsLast | compiler/frontend.java/src/org/jetbrains/kotlin/load/java/structure/impl/classFiles/Methods.kt:79 | only the last parameter can be vararg, and it is when ACC_VARARGS is set |
| Methods.ParseMethodSignature | compiler/frontend.java/src/org/jetbrains/kotlin/load/java/structure/impl/classFiles/Methods.kt:108-134 | the cursor method gives exactly `MethodSignature` |
| Methods.ParseMethodDescription | compiler/frontend.java/src/org/jetbrains/kotlin/load/java/structure/impl/classFiles/Methods.kt:97-106 | the method gives exactly `MethodDescription` |
| Methods.MethodDescriptionFails | compiler/frontend.java/src/org/jetbrains/kotlin/load/java/structure/impl/classFiles/Methods.kt:103 | the first argument that does not parse decides the failure |
| Methods.BindTypeParameters | compiler/frontend.java/src/org/jetbrains/kotlin/load/java/structure/impl/classFiles/Methods.kt:69 | the resolver's bindings become the old ones with the type parameters added by name |
| Methods.ValueParameterList | compiler/frontend.java/src/org/jetbrains/kotlin/load/java/structure/impl/classFiles/Methods.kt:71-82 | the fresh parameters have the shapes `ParameterEntries` gives, no annotations, and are all distinct |
| Methods.Create | compiler/frontend.java/src/org/jetbrains/kotlin/load/java/structure/impl/classFiles/Methods.kt:48-95 | `Create` fails exactly when the signature (or, without one, the descriptor) fails, and then nothing is bound. On success: `<init>` is a constructor named `NO_NAME_PROVIDED`, and anything else is a method with its name and return type. On success also: its parameters follow `ParameterEntries`, with the first skipped only for an inner-class constructor without a signature; its type parameters are bound in its fork; and the visitor skips 1 parameter exactly for inner-class constructors |
| JavaMembers.BinaryJavaValueParameter.constructor | compiler/frontend.java/src/org/jetbrains/kotlin/load/java/structure/impl/classFiles/Methods.kt:81 | a parameter with its type and vararg flag, and no annotations |
| JavaMembers.BinaryJavaMember.constructor | compiler/frontend.java/src/org/jetbrains/kotlin/load/java/structure/impl/classFiles/Methods.kt:138-160 | a constructor member is named `NO_NAME_PROVIDED`, and a method has its identifier; it starts without annotations or default value |
| JavaMembers.BinaryJavaField.constructor | compiler/frontend.java/src/org/jetbrains/kotlin/load/java/structure/impl/classFiles/BinaryJavaClass.kt:141 | a field with its name, flags, enum flag and type, and no annotations |
| AnnotationCollectors.ParameterIndex | compiler/frontend.java/src/org/jetbrains/kotlin/load/java/structure/impl/classFiles/Annotations.kt:47-50 | a declared index below the skip count is ignored; an index at or past the parameter count is an `IndexOutOfBoundsException`; otherwise the index is shifted down by the skip count |
| AnnotationCollectors.AnnotationsCollectorMethodVisitor.constructor | compiler/frontend.java/src/org/jetbrains/kotlin/load/java/structure/impl/classFiles/Annotations.kt:32-36 | the visitor holds its member, resolver and skip count |
| AnnotationCollectors.AnnotationsCollectorMethodVisitor.VisitAnnotationDefault | compiler/frontend.java/src/org/jetbrains/kotlin/load/java/structure/impl/classFiles/Annotations.kt:37-40 | the default-value flag is set on methods only, and nothing else changes |
| AnnotationCollectors.AnnotationsCollectorMethodVisitor.VisitAnnotation | compiler/frontend.java/src/org/jetbrains/kotlin/load/java/structure/impl/classFiles/Annotations.kt:42-45 | exactly one annotation is appended to the member |
| AnnotationCollectors.AnnotationsCollectorMethodVisitor.VisitParameterAnnotation | compiler/frontend.java/src/org/jetbrains/kotlin/load/java/structure/impl/classFiles/Annotations.kt:47-54 | the annotation is appended to the parameter at the shifted index only; every other parameter is unchanged; an index out of range fails |
| Annotations.DescriptorRoundTrip | compiler/frontend.java/src/org/jetbrains/kotlin/load/java/structure/impl/classFiles/Annotations.kt:62 | the internal name of descriptor `L n;` is n |
| Annotations.DescriptorInternalName | compiler/frontend.java/src/org/jetbrains/kotlin/load/java/structure/impl/classFiles/Annotations.kt:62 | the text between the leading `L` and the first `;`; its meaning is stated by `DescriptorRoundTrip` |
| Annotations.ClassIdOf | compiler/frontend.java/src/org/jetbrains/kotlin/load/java/structure/impl/classFiles/Annotations.kt:74-81 | no qualified name gives no id, and an id is never local |
| Annotations.ClassIdOfChain | compiler/frontend.java/src/org/jetbrains/kotlin/load/java/structure/impl/classFiles/Annotations.kt:74-81 | there is an id exactly when every class on the outer chain has a qualified name. Then the id takes the outermost class's package, and its relative name is the outermost short name followed by the nested names |
| Annotations.BinaryJavaAnnotation.Resolve | compiler/frontend.java/src/org/jetbrains/kotlin/load/java/structure/impl/classFiles/Annotations.kt:71 | `resolve()` gives a class exactly when the descriptor's classifier is a class |
| Annotations.BinaryJavaAnnotation.JavaClass | compiler/frontend.java/src/org/jetbrains/kotlin/load/java/structure/impl/classFiles/Annotations.kt:61-63 | the classifier looked up by the internal name of the descriptor in the annotation's scope; `Resolve` and `AnnotationClassId` are stated through it |
| Annotations.BinaryJavaAnnotation.AnnotationClassId | compiler/frontend.java/src/org/jetbrains/kotlin/load/java/structure/impl/classFiles/Annotations.kt:68-69 | a resolved class with an id gives that id; otherwise the top-level id of the converted descriptor name |
| Annotations.UnresolvedAnnotationClassId | compiler/frontend.java/src/org/jetbrains/kotlin/load/java/structure/impl/classFiles/Annotations.kt:68-69 | an unresolved `L n;` annotation has package = parent and relative name = short name of n's converted name |
| FqNames.ShortName | compiler/frontend.java/src/org/jetbrains/kotlin/load/java/structure/impl/classFiles/BinaryJavaClass.kt:159 | the short name has no `.`, and the name is its parent, a `.` and the short name |
| FqNames.Child | compiler/frontend.java/src/org/jetbrains/kotlin/load/java/structure/impl/classFiles/Annotations.kt:80 | appending a plain name gives a name whose short name is that name and whose parent is the original |
| FqNames.TopLevel | compiler/frontend.java/src/org/jetbrains/kotlin/load/java/structure/impl/classFiles/Annotations.kt:76 | a top-level id splits the name into package = parent and relative name = short name; it is not local |
| BinaryJavaClasses.SupertypesLoop | compiler/frontend.java/src/org/jetbrains/kotlin/load/java/structure/impl/classFiles/BinaryJavaClass.kt:125-130 | the corrected loop keeps the supertypes so far and adds only in-scope classifier types |
| BinaryJavaClasses.ClassSupertypes | compiler/frontend.java/src/org/jetbrains/kotlin/load/java/structure/impl/classFiles/BinaryJavaClass.kt:125-130 | every supertype of a signature is an in-scope classifier type |
| BinaryJavaClasses.AsWrittenSupertypeStep | compiler/frontend.java/src/org/jetbrains/kotlin/load/java/structure/impl/classFiles/BinaryJavaClass.kt:127-129 | one iteration of the loop as written keeps its position within the text |
| BinaryJavaClasses.AsWrittenIterate | compiler/frontend.java/src/org/jetbrains/kotlin/load/java/structure/impl/classFiles/BinaryJavaClass.kt:127-129 | n iterations of the loop as written keep their position within the text |
| BinaryJavaClasses.AsWrittenSupertypesStall | compiler/frontend.java/src/org/jetbrains/kotlin/load/java/structure/impl/classFiles/BinaryJavaClass.kt:127-129 | at a character that starts no class reference, the loop as written never moves |
| BinaryJavaClasses.StraySupertypeCharacter | compiler/frontend.java/src/org/jetbrains/kotlin/load/java/structure/impl/classFiles/BinaryJavaClass.kt:117-131 | for signature `X`, the loop as written is stuck at index 0 for ever, while the corrected loop rejects it |
| BinaryJavaClasses.CorrectedLoopAgrees | compiler/frontend.java/src/org/jetbrains/kotlin/load/java/structure/impl/classFiles/BinaryJavaClass.kt:125-130 | wherever the loop as written finishes, the corrected loop has the same result |
| BinaryJavaClasses.FieldAnnotationsVisitor.constructor | compiler/frontend.java/src/org/jetbrains/kotlin/load/java/structure/impl/classFiles/BinaryJavaClass.kt:144 | the visitor holds its field and the class scope |
| BinaryJavaClasses.FieldAnnotationsVisitor.VisitAnnotation | compiler/frontend.java/src/org/jetbrains/kotlin/load/java/structure/impl/classFiles/BinaryJavaClass.kt:145-148 | exactly one annotation is appended to the field |
| BinaryJavaClasses.BinaryJavaClass.constructor | compiler/frontend.java/src/org/jetbrains/kotlin/load/java/structure/impl/classFiles/BinaryJavaClass.kt:30-50 | a class before any event: the given flags, the `lateinit` properties unset, no members, annotations or inner classes |
| BinaryJavaClasses.BinaryJavaClass.InnerClassNames | compiler/frontend.java/src/org/jetbrains/kotlin/load/java/structure/impl/classFiles/BinaryJavaClass.kt:50 | the names of the recorded inner classes |
| BinaryJavaClasses.BinaryJavaClass.IsInterface | compiler/frontend.java/src/org/jetbrains/kotlin/load/java/structure/impl/classFiles/BinaryJavaClass.kt:169 | the `ACC_INTERFACE` bit of the access flags |
| BinaryJavaClasses.BinaryJavaClass.IsAnnotationType | compiler/frontend.java/src/org/jetbrains/kotlin/load/java/structure/impl/classFiles/BinaryJavaClass.kt:170 | the `ACC_ANNOTATION` bit of the access flags |
| BinaryJavaClasses.BinaryJavaClass.IsEnum | compiler/frontend.java/src/org/jetbrains/kotlin/load/java/structure/impl/classFiles/BinaryJavaClass.kt:171 | the `ACC_ENUM` bit of the access flags |
| BinaryJavaClasses.BinaryJavaClass.IsStatic | compiler/frontend.java/src/org/jetbrains/kotlin/load/java/structure/impl/classFiles/Methods.kt:67 | the `ACC_STATIC` bit of the access flags, which decides whether a constructor skips its outer-instance parameter |
| BinaryJavaClasses.BinaryJavaClass.Name | compiler/frontend.java/src/org/jetbrains/kotlin/load/java/structure/impl/classFiles/BinaryJavaClass.kt:158-159 | the short name of the assigned qualified name, and an error while it is unassigned |
| BinaryJavaClasses.BinaryJavaClass.VisitMethod | compiler/frontend.java/src/org/jetbrains/kotlin/load/java/structure/impl/classFiles/BinaryJavaClass.kt:59-80 | no visitor exactly for synthetic, bridge and `<clinit>` methods, and in an enum for `<init>`, `values()` and `valueOf(String)`. Otherwise the member is built in a fresh fork of the class scope and appended to `methods` or `constructors` by kind, with its value parameters those of the parsed types, the first one dropped for an inner-class constructor read from its descriptor and the last one a vararg for `ACC_VARARGS`. Nothing else changes |
| BinaryJavaClasses.BinaryJavaClass.AddMember | compiler/frontend.java/src/org/jetbrains/kotlin/load/java/structure/impl/classFiles/BinaryJavaClass.kt:71-79 | the member is built in a fresh fork of the class scope, with its type parameters bound there, and appended to `constructors` for `<init>` and to `methods` otherwise, with the value parameters `ParameterEntries` gives; a signature that does not parse leaves both lists alone |
| BinaryJavaClasses.BinaryJavaClass.VisitInnerClass | compiler/frontend.java/src/org/jetbrains/kotlin/load/java/structure/impl/classFiles/BinaryJavaClass.kt:82-89 | the flags are recorded under the short name exactly for a non-synthetic entry with both names whose outer name is this class; nothing else changes |
| BinaryJavaClasses.SkipsMethod | compiler/frontend.java/src/org/jetbrains/kotlin/load/java/structure/impl/classFiles/BinaryJavaClass.kt:60-69 | the methods `visitMethod` drops: synthetic, bridge, `<clinit>`, and in an enum the constructors, `values()` and `valueOf(String)`; `VisitMethod` returns no visitor exactly for these |
| BinaryJavaClasses.RecordsInnerClass | compiler/frontend.java/src/org/jetbrains/kotlin/load/java/structure/impl/classFiles/BinaryJavaClass.kt:83-86 | an entry is recorded when it is not synthetic, has both names, and its outer name is this class; `VisitInnerClass` records exactly these |
| BinaryJavaClasses.InternalClassType | compiler/frontend.java/src/org/jetbrains/kotlin/load/java/structure/impl/classFiles/BinaryJavaClass.kt:133-134 | an internal name becomes a classifier type without arguments, resolved by internal name in the class scope when queried |
| BinaryJavaClasses.InnerClassFileName | compiler/frontend.java/src/org/jetbrains/kotlin/load/java/structure/impl/classFiles/BinaryJavaClass.kt:164 | the file `Outer$Inner.class` beside the class file |
| BinaryJavaClasses.BinaryJavaClass.Visit | compiler/frontend.java/src/org/jetbrains/kotlin/load/java/structure/impl/classFiles/BinaryJavaClass.kt:91-115 | `Visit` ORs the flags in and assigns the names. Without a signature, there are no type parameters, and the supertypes are the superclass followed by the interfaces in order. With one, the result is that of `ParsedClassSignature` |
| BinaryJavaClasses.BinaryJavaClass.DescriptorSupertypes | compiler/frontend.java/src/org/jetbrains/kotlin/load/java/structure/impl/classFiles/BinaryJavaClass.kt:106-114 | without a signature there are no type parameters, and the supertypes are the superclass, when there is one, followed by the interfaces in order; nothing else in the class changes |
| BinaryJavaClasses.BinaryJavaClass.ParseClassSignature | compiler/frontend.java/src/org/jetbrains/kotlin/load/java/structure/impl/classFiles/BinaryJavaClass.kt:117-131 | the type parameters are assigned and bound in the class scope; the supertypes are `ClassSupertypes`; a failure leaves the rest untouched |
| BinaryJavaClasses.BinaryJavaClass.VisitField | compiler/frontend.java/src/org/jetbrains/kotlin/load/java/structure/impl/classFiles/BinaryJavaClass.kt:136-151 | a synthetic field is dropped. Otherwise the type is read from the signature, or from the descriptor when there is none, and a fresh field with the enum flag of its access is appended. A type that does not parse fails |
| BinaryJavaClasses.BinaryJavaClass.DeliverField | compiler/frontend.java/src/org/jetbrains/kotlin/load/java/structure/impl/classFiles/BinaryJavaClass.kt:136-150 | a synthetic field leaves the class unchanged; an unparsable type is its exception with nothing appended; otherwise exactly one fresh field is appended, with the name, flags, enum flag and parsed type, carrying the reported annotations in order; nothing else changes |
| BinaryJavaClasses.FieldAnnotations | compiler/frontend.java/src/org/jetbrains/kotlin/load/java/structure/impl/classFiles/BinaryJavaClass.kt:144-148 | one annotation per descriptor, in order, each read in the field's scope |
| BinaryJavaClasses.BinaryJavaClass.DeliverMethod | compiler/frontend.java/src/org/jetbrains/kotlin/load/java/structure/impl/classFiles/BinaryJavaClass.kt:59-79 | a filtered-out method leaves the class unchanged; otherwise, on success, exactly one fresh member with the access flags is appended to `constructors` for `<init>` and to `methods` otherwise, carrying the annotations of its events in order; fields and the header do not change |
| BinaryJavaClasses.BinaryJavaClass.Deliver | compiler/frontend.java/src/org/jetbrains/kotlin/load/java/structure/impl/classFiles/BinaryJavaClass.kt:52-57 | any event only appends to the member lists |
| BinaryJavaClasses.BinaryJavaClass.Accept | compiler/frontend.java/src/org/jetbrains/kotlin/load/java/structure/impl/classFiles/BinaryJavaClass.kt:52-57 | reading a whole event sequence only appends to the member lists |
| BinaryJavaClasses.BinaryJavaClass.FindInnerClass | compiler/frontend.java/src/org/jetbrains/kotlin/load/java/structure/impl/classFiles/BinaryJavaClass.kt:161-167 | a name never recorded, or a missing file, finds nothing. A class found is fresh, has this class as its outer class and a fresh scope, and is the file `Outer$Inner` |
| BinaryJavaClasses.FeedMethodAnnotations | compiler/frontend.java/src/org/jetbrains/kotlin/load/java/structure/impl/classFiles/Annotations.kt:42-45 | a member's annotations are the old ones plus those of its annotation events, in order |
| BinaryJavaClasses.MemberAnnotations | compiler/frontend.java/src/org/jetbrains/kotlin/load/java/structure/impl/classFiles/Annotations.kt:42-45 | a member gets at most one annotation per event |
| BinaryJavaClasses.Load | compiler/frontend.java/src/org/jetbrains/kotlin/load/java/structure/impl/classFiles/BinaryJavaClass.kt:52-57 | a class that loads is fresh and keeps its file name, outer class, scope and component |
| CanonicalText.InfoLoop | compiler/frontend.java/src/org/jetbrains/kotlin/load/java/structure/impl/JavaTypesByCanonicalText.kt:68-85 | the parsed type ends at a stop character or the end, or just after `[]` for an array; the arguments read so far end the argument list; consuming nothing gives the name so far |
| CanonicalText.TypeInfoAt | compiler/frontend.java/src/org/jetbrains/kotlin/load/java/structure/impl/JavaTypesByCanonicalText.kt:62-88 | the rest index lies between the start and the end |
| CanonicalText.ClassifierOrArrayType | compiler/frontend.java/src/org/jetbrains/kotlin/load/java/structure/impl/JavaTypesByCanonicalText.kt:90-97 | nothing is consumed only at the end or at a stop character |
| CanonicalText.TypeArguments | compiler/frontend.java/src/org/jetbrains/kotlin/load/java/structure/impl/JavaTypesByCanonicalText.kt:99-127 | the argument group read at a `<` ends past it and within the text |
| CanonicalText.TypeArgumentsEndAfterBracket | compiler/frontend.java/src/org/jetbrains/kotlin/load/java/structure/impl/JavaTypesByCanonicalText.kt:99-127 | an argument group that is read ends just after a `>` |
| CanonicalText.ArgsLoop | compiler/frontend.java/src/org/jetbrains/kotlin/load/java/structure/impl/JavaTypesByCanonicalText.kt:105-126 | the corrected argument loop, where it succeeds, ends past where it started and within the text |
| CanonicalText.ArgsLoopEndsAfterBracket | compiler/frontend.java/src/org/jetbrains/kotlin/load/java/structure/impl/JavaTypesByCanonicalText.kt:105-126 | a successful run of the corrected argument loop ends just after a `>` |
| CanonicalText.Wildcard | compiler/frontend.java/src/org/jetbrains/kotlin/load/java/structure/impl/JavaTypesByCanonicalText.kt:129-151 | a `?` without a space after it is the unbounded extends wildcard, and consumes one character |
| CanonicalText.WildcardBound | compiler/frontend.java/src/org/jetbrains/kotlin/load/java/structure/impl/JavaTypesByCanonicalText.kt:153-159 | a bounded wildcard keeps its direction and has a bound |
| CanonicalText.Intersections | compiler/frontend.java/src/org/jetbrains/kotlin/load/java/structure/impl/JavaTypesByCanonicalText.kt:155-157 | the intersection loop stops where no ` &` follows |
| CanonicalText.ClassifierTypeByCanonicalText | compiler/frontend.java/src/org/jetbrains/kotlin/load/java/structure/impl/JavaTypesByCanonicalText.kt:28-35 | a parsed text is a classifier type looked up by qualified name |
| CanonicalText.ClassifierOf | compiler/frontend.java/src/org/jetbrains/kotlin/load/java/structure/impl/JavaTypesByCanonicalText.kt:93 | the classifier type looked up by the qualified name read, with the arguments read; `ClassifierInfo` and `RoundTrip` state that a rendered type reads back as itself |
| CanonicalText.ParseClassifierOrArrayTypeInfo | compiler/frontend.java/src/org/jetbrains/kotlin/load/java/structure/impl/JavaTypesByCanonicalText.kt:62-88 | the index loop gives exactly `TypeInfoAt` |
| CanonicalText.ParseClassifierOrArrayType | compiler/frontend.java/src/org/jetbrains/kotlin/load/java/structure/impl/JavaTypesByCanonicalText.kt:90-97 | gives exactly `ClassifierOrArrayType` |
| CanonicalText.ParseArgs | compiler/frontend.java/src/org/jetbrains/kotlin/load/java/structure/impl/JavaTypesByCanonicalText.kt:99-127 | gives exactly `TypeArguments` |
| CanonicalText.ParseWildcard | compiler/frontend.java/src/org/jetbrains/kotlin/load/java/structure/impl/JavaTypesByCanonicalText.kt:129-160 | gives exactly `Wildcard` |
| CanonicalText.CreateByCanonicalText | compiler/frontend.java/src/org/jetbrains/kotlin/load/java/structure/impl/JavaTypesByCanonicalText.kt:28-36 | gives exactly `ClassifierTypeByCanonicalText` |
| CanonicalText.NameRun | compiler/frontend.java/src/org/jetbrains/kotlin/load/java/structure/impl/JavaTypesByCanonicalText.kt:83 | a run of name characters is appended to the name |
| CanonicalText.PlainNameText | compiler/frontend.java/src/org/jetbrains/kotlin/load/java/structure/impl/JavaTypesByCanonicalText.kt:28-35 | a plain name is the classifier of that name without arguments, and its canonical text is the name |
| CanonicalText.GroupStep | compiler/frontend.java/src/org/jetbrains/kotlin/load/java/structure/impl/JavaTypesByCanonicalText.kt:70-74 | a `<` reads one argument group and adds it |
| CanonicalText.GroupRead | compiler/frontend.java/src/org/jetbrains/kotlin/load/java/structure/impl/JavaTypesByCanonicalText.kt:99-127 | the rendering of a type's arguments reads back as those arguments |
| CanonicalText.ClassifierInfo | compiler/frontend.java/src/org/jetbrains/kotlin/load/java/structure/impl/JavaTypesByCanonicalText.kt:68-87 | the rendering of a classifier reads back as its name and argument groups |
| CanonicalText.ClassifierGroupRead | compiler/frontend.java/src/org/jetbrains/kotlin/load/java/structure/impl/JavaTypesByCanonicalText.kt:70-74 | the same for a classifier with arguments, group by group |
| CanonicalText.ComponentRead | compiler/frontend.java/src/org/jetbrains/kotlin/load/java/structure/impl/JavaTypesByCanonicalText.kt:90-97 | the rendering of a classifier or array type reads back as that type |
| CanonicalText.WildcardKeyword | compiler/frontend.java/src/org/jetbrains/kotlin/load/java/structure/impl/JavaTypesByCanonicalText.kt:139-151 | `? extends ` and `? super ` select the direction and move past the keyword |
| CanonicalText.BoundedWildcardRead | compiler/frontend.java/src/org/jetbrains/kotlin/load/java/structure/impl/JavaTypesByCanonicalText.kt:129-159 | the rendering of a bounded wildcard reads back as that wildcard |
| CanonicalText.ArgumentRead | compiler/frontend.java/src/org/jetbrains/kotlin/load/java/structure/impl/JavaTypesByCanonicalText.kt:105-126 | the rendering of one argument reads back as that argument |
| CanonicalText.ArgumentsRead | compiler/frontend.java/src/org/jetbrains/kotlin/load/java/structure/impl/JavaTypesByCanonicalText.kt:105-126 | a comma-separated rendering of arguments reads back as the arguments, ending after `>` |
| CanonicalText.RoundTrip | compiler/frontend.java/src/org/jetbrains/kotlin/load/java/structure/impl/JavaTypesByCanonicalText.kt:28-35 | parsing the rendering of any printable classifier type gives that type back, and its canonical text is its qualified name |
| CanonicalText.ArrayRejected | compiler/frontend.java/src/org/jetbrains/kotlin/load/java/structure/impl/JavaTypesByCanonicalText.kt:31 | the text of an array type is an `AssertionError` |
| CanonicalText.TrailingTextRejected | compiler/frontend.java/src/org/jetbrains/kotlin/load/java/structure/impl/JavaTypesByCanonicalText.kt:32 | text left after a type is an `AssertionError` naming it |
| CanonicalText.RawOnlyWithoutArguments | compiler/frontend.java/src/org/jetbrains/kotlin/load/java/structure/impl/JavaTypesByCanonicalText.kt:41-42 | a parsed type is raw exactly when it has no arguments and its name finds a class with type parameters |
| CanonicalText.IsRaw | compiler/frontend.java/src/org/jetbrains/kotlin/load/java/structure/impl/JavaTypesByCanonicalText.kt:41-42 | no arguments, and the factory finds the name as a class with type parameters; `RawOnlyWithoutArguments` states it for parsed texts |
| CanonicalText.CanonicalTextOf | compiler/frontend.java/src/org/jetbrains/kotlin/load/java/structure/impl/JavaTypesByCanonicalText.kt:45-55 | the qualified name alone; `CanonicalTextWithoutArguments` states its relation to the text |
| CanonicalText.CanonicalTextWithoutArguments | compiler/frontend.java/src/org/jetbrains/kotlin/load/java/structure/impl/JavaTypesByCanonicalText.kt:54-55 | the canonical text of a parsed type is a prefix of the text, and all of it exactly when the type has no arguments |
| CanonicalText.AsWrittenArgsStep | compiler/frontend.java/src/org/jetbrains/kotlin/load/java/structure/impl/JavaTypesByCanonicalText.kt:105-126 | one iteration of `parseArgs` as written keeps its index within the text |
| CanonicalText.AsWrittenArgsIterate | compiler/frontend.java/src/org/jetbrains/kotlin/load/java/structure/impl/JavaTypesByCanonicalText.kt:105-126 | n iterations as written keep their index within the text |
| CanonicalText.AsWrittenArgsStall | compiler/frontend.java/src/org/jetbrains/kotlin/load/java/structure/impl/JavaTypesByCanonicalText.kt:120-124 | at `&` the loop as written never moves, and adds one empty type per iteration |
| CanonicalText.IntersectionArgument | compiler/frontend.java/src/org/jetbrains/kotlin/load/java/structure/impl/JavaTypesByCanonicalText.kt:105-126 | `A<B&C>`: the loop as written reads `B`, then stays at index 3 for ever; the corrected parser rejects the text |
| CanonicalText.CorrectedArgsAgree | compiler/frontend.java/src/org/jetbrains/kotlin/load/java/structure/impl/JavaTypesByCanonicalText.kt:105-126 | wherever the loop as written returns, the corrected loop has the same result |
| CanonicalText.InnerClassOfGeneric | compiler/frontend.java/src/org/jetbrains/kotlin/load/java/structure/impl/JavaTypesByCanonicalText.kt:87 | `A<B>.C<D>` is `A.C` with arguments `[D, B]`: later groups come first |
| CanonicalText.UnexpectedWildcard | compiler/frontend.java/src/org/jetbrains/kotlin/load/java/structure/impl/JavaTypesByCanonicalText.kt:150 | `? foo` is an `IllegalStateException` naming the rest of the text |
| DeadCodeElimination.ParentChild | js/js.inliner/src/org/jetbrains/kotlin/js/dce/DeadCodeElimination.kt:526-530 | the parent of a child is the original name and a child is never a root; a name is a root exactly when its path is empty; a root is its own parent; otherwise the parent drops exactly the last path element |
| DeadCodeElimination.Child | js/js.inliner/src/org/jetbrains/kotlin/js/dce/DeadCodeElimination.kt:526 | the name one property below `f` on the same root; `ParentChild` states that `Parent` undoes it and that the result is never a root |
| DeadCodeElimination.Parent | js/js.inliner/src/org/jetbrains/kotlin/js/dce/DeadCodeElimination.kt:528 | the path without its last name, an empty path staying empty; `ParentChild` states that a root is its own parent and that it undoes `Child` |
| DeadCodeElimination.IsRoot | js/js.inliner/src/org/jetbrains/kotlin/js/dce/DeadCodeElimination.kt:530 | a name is a root exactly when its path is empty, as `ParentChild` states |
| DeadCodeElimination.AncestorOfParent | js/js.inliner/src/org/jetbrains/kotlin/js/dce/DeadCodeElimination.kt:528 | the ancestors of a parent are the name's own ancestors below it |
| DeadCodeElimination.SetMap.constructor | js/js.inliner/src/org/jetbrains/kotlin/js/dce/DeadCodeElimination.kt:533 | an empty multimap |
| DeadCodeElimination.Lookup | js/js.inliner/src/org/jetbrains/kotlin/js/dce/DeadCodeElimination.kt:533 | the set a key holds, empty for a missing key, as `getOrPut(key, ::mutableSetOf)` sees it; `SetMap.Add` is stated through it |
| DeadCodeElimination.SetMap.Add | js/js.inliner/src/org/jetbrains/kotlin/js/dce/DeadCodeElimination.kt:533 | the key's set grows by the values; the result is true exactly when some value was not already in it |
| DeadCodeElimination.RecordAncestors | js/js.inliner/src/org/jetbrains/kotlin/js/dce/DeadCodeElimination.kt:60-65 | the parent-chain loop for one name gives exactly `AncestorEdges` |
| DeadCodeElimination.RecordAllAncestors | js/js.inliner/src/org/jetbrains/kotlin/js/dce/DeadCodeElimination.kt:59-66 | the loop over all names gives exactly `AllAncestorEdges` |
| DeadCodeElimination.AncestorEdges | js/js.inliner/src/org/jetbrains/kotlin/js/dce/DeadCodeElimination.kt:60-65 | the parent-chain loop for one name as a function: stop at the root or at the first edge already recorded, otherwise record the edge and go up; `AncestorEdgesAdds` and `AncestorEdgesClose` state what it adds and that it keeps the map closed |
| DeadCodeElimination.AllAncestorEdges | js/js.inliner/src/org/jetbrains/kotlin/js/dce/DeadCodeElimination.kt:59-66 | `AncestorEdges` applied to every name in order; `AllAncestorsRecorded` states that every chain ends up recorded |
| DeadCodeElimination.ClosedChain | js/js.inliner/src/org/jetbrains/kotlin/js/dce/DeadCodeElimination.kt:59-66 | in a closed map, a recorded parent → child edge implies the whole chain above the child is recorded |
| DeadCodeElimination.AncestorEdgesAdds | js/js.inliner/src/org/jetbrains/kotlin/js/dce/DeadCodeElimination.kt:59-66 | the loop only adds, and it adds only edges from an ancestor of the name to the next one |
| DeadCodeElimination.AncestorEdgesClose | js/js.inliner/src/org/jetbrains/kotlin/js/dce/DeadCodeElimination.kt:59-66 | stopping at the first recorded edge is enough: the map stays closed and the name's whole chain is recorded |
| DeadCodeElimination.AllAncestorsRecorded | js/js.inliner/src/org/jetbrains/kotlin/js/dce/DeadCodeElimination.kt:59-66 | after the loop, every name's chain up to its root is recorded and the map is closed |
| DeadCodeElimination.Root | js/js.inliner/src/org/jetbrains/kotlin/js/dce/DeadCodeElimination.kt:447-452 | the root a parent chain reaches is its own parent, and ranks strictly increase along the chain |
| DeadCodeElimination.RootsOf | js/js.inliner/src/org/jetbrains/kotlin/js/dce/DeadCodeElimination.kt:447-452 | the representative of every node |
| DeadCodeElimination.CompressKeepsRoot | js/js.inliner/src/org/jetbrains/kotlin/js/dce/DeadCodeElimination.kt:450 | pointing a node straight at its root keeps the forest and every node's root |
| DeadCodeElimination.LinkRoots | js/js.inliner/src/org/jetbrains/kotlin/js/dce/DeadCodeElimination.kt:458-469 | linking one root under another of rank no smaller keeps a forest with the linked rank, and moves exactly the nodes of the attached root |
| DeadCodeElimination.ExtendKeepsRoots | js/js.inliner/src/org/jetbrains/kotlin/js/dce/DeadCodeElimination.kt:441-445 | a new singleton root changes no other node's root |
| DeadCodeElimination.Collect | js/js.inliner/src/org/jetbrains/kotlin/js/dce/DeadCodeElimination.kt:498-516 | the walk only grows the result and the visited set, and enters the node exactly when its root was not visited |
| DeadCodeElimination.CollectQualifiers | js/js.inliner/src/org/jetbrains/kotlin/js/dce/DeadCodeElimination.kt:508-512 | the qualifier loop only grows the result and the visited set |
| DeadCodeElimination.RootFqNamesStart | js/js.inliner/src/org/jetbrains/kotlin/js/dce/DeadCodeElimination.kt:488-496 | with either fallback, the fallback of `collectRootFqNames` is never taken; a root without qualifiers gives itself with an empty path |
| DeadCodeElimination.RootFqNames | js/js.inliner/src/org/jetbrains/kotlin/js/dce/DeadCodeElimination.kt:488-496 | the walk started with an empty path, result and visited set; `RootFqNamesStart` states that its fallback is dead |
| DeadCodeElimination.CollectedPathsEndWithPath | js/js.inliner/src/org/jetbrains/kotlin/js/dce/DeadCodeElimination.kt:498-516 | with the fallback corrected, every name the walk adds ends with the path it was called with |
| DeadCodeElimination.QualifierPathsEndWithPath | js/js.inliner/src/org/jetbrains/kotlin/js/dce/DeadCodeElimination.kt:508-512 | the same for the qualifier loop |
| DeadCodeElimination.SelfQualified | js/js.inliner/src/org/jetbrains/kotlin/js/dce/DeadCodeElimination.kt:498-516 | a root qualified only by itself gives that qualifier alone: the cycle is cut by the visited set |
| DeadCodeElimination.DiamondDropsPath | js/js.inliner/src/org/jetbrains/kotlin/js/dce/DeadCodeElimination.kt:508-511 | with two paths to one root, the code as written gives `root.c` for the second, dropping the path `.a`, so `collectRootFqNames` gives `2.b.a` and `2.c`; the corrected walk gives `2.b.a` and `2.c.a` |
| DeadCodeElimination.FqnRoots.constructor | js/js.inliner/src/org/jetbrains/kotlin/js/dce/DeadCodeElimination.kt:441-445 | no nodes |
| DeadCodeElimination.FqnRoots.NewRoot | js/js.inliner/src/org/jetbrains/kotlin/js/dce/DeadCodeElimination.kt:441-445 | a new node is its own parent with rank 0 and empty sets; no other node's root changes |
| DeadCodeElimination.FqnRoots.Original | js/js.inliner/src/org/jetbrains/kotlin/js/dce/DeadCodeElimination.kt:447-452 | `original` gives the node's root, points the node straight at it, changes no node's root, and repoints parents only to that root |
| DeadCodeElimination.FqnRoots.Merge | js/js.inliner/src/org/jetbrains/kotlin/js/dce/DeadCodeElimination.kt:472-475 | the surviving node's names and qualifiers become the union of both |
| DeadCodeElimination.FqnRoots.Union | js/js.inliner/src/org/jetbrains/kotlin/js/dce/DeadCodeElimination.kt:454-470 | afterwards both nodes share a root. The survivor is the second root when it has the greater rank, and otherwise the first, whose rank grows on a tie. Exactly the nodes of the other root move, and the sets are merged into the survivor. Already-joined nodes change nothing but paths |
| DeadCodeElimination.FqnRoots.Link | js/js.inliner/src/org/jetbrains/kotlin/js/dce/DeadCodeElimination.kt:458-469 | the lower root goes under the surviving root, which merges its sets and gains one rank on a tie; exactly the nodes that had the lower root now have the survivor, and the forest stays valid |
| DeadCodeElimination.FqnRoots.LocalNames | js/js.inliner/src/org/jetbrains/kotlin/js/dce/DeadCodeElimination.kt:477-478 | the representative's local names |
| DeadCodeElimination.FqnRoots.AddLocalNames | js/js.inliner/src/org/jetbrains/kotlin/js/dce/DeadCodeElimination.kt:480-482 | only the representative's names grow |
| DeadCodeElimination.FqnRoots.AddQualifiers | js/js.inliner/src/org/jetbrains/kotlin/js/dce/DeadCodeElimination.kt:484-486 | only the representative's qualifiers grow |
| DeadCodeElimination.FqnRoots.CollectRootFqNamesImpl | js/js.inliner/src/org/jetbrains/kotlin/js/dce/DeadCodeElimination.kt:498-516 | the recursive walk gives exactly `Collect` over the roots before the call, with the fallback as written (`asWritten`) or corrected |
| DeadCodeElimination.FqnRoots.CollectRootFqNames | js/js.inliner/src/org/jetbrains/kotlin/js/dce/DeadCodeElimination.kt:488-496 | gives exactly `RootFqNames` with the same fallback choice |
| DeadCodeElimination.FqnRoots.CollectFqnRootFqNames | js/js.inliner/src/org/jetbrains/kotlin/js/dce/DeadCodeElimination.kt:520-522 | each root name of the node, as written or corrected, extended by the name's own path |

## Left out

- The class reader and file access (`ClassReader.accept`, `contentsToByteArray`, `findChild`) are left out because they are byte I/O and ASM's container format. A class file is modelled as the sequence of events the reader would deliver (`ClassEvent`). The directory lookup of `findInnerClass` is a function from file name to event sequence.
- ASM's `Type` is foreign code. The split of a method descriptor into argument and return descriptors is modelled as a plain split at field-descriptor boundaries (`ArgumentDescriptors`). `Type.getType(desc).internalName` is modelled as the text between `L` and `;`.
- The `lazy` and `buildLazyValueForMap` caches: the model resolves a reference against the scope at every query and keeps no cache. In the source the first query fixes the value, so a binding added to the scope after that query is not seen there, while the model sees it.
- The timing wrapper `parseClassifierType.time` is instrumentation.
- `DeadCodeElimination.apply`, its three JavaScript AST visitors, the dependency propagation, `println` and `Fqn.toString` sit outside the union-find. Only the parent-chain loop of `apply` is modelled.
- The `FqnRoot` object identity is modelled as an index into one arena of parallel sequences. `JsName` is an opaque number. Aliasing between `FqnRoot` objects therefore cannot arise.
- `Fqn.root` is taken as given. `Fqn.collectRootFqNames` is modelled as `FqnRoots.CollectFqnRootFqNames`, on the arena.
- `FqName`, `Name` and `ClassId` are strings and a three-field datatype. Their source files are not part of this model, so only the operations the core calls are modelled (`FqNames`).
- Kotlin `assert` is modelled as enabled: a failed assertion is an `AssertionError` failure.
- `BinaryJavaClass.visitAnnotation` returns no visitor and records nothing, so class annotations are an ignored event.
- The following are not modelled, because no core operation reads them: the class-file `version`, a field's constant `value`, `exceptions`, a member's `containingClass` back-reference, `virtualFile` other than its name, and `lightClassOriginKind`. The same holds for the constant `annotations`, `findAnnotation` and `isDeprecatedInJavaDoc` answers of a canonical-text type, and the `visible` flag of annotations.
- `BinaryJavaClasses.BinaryJavaClass.Deliver`: states only that member lists grow. Not stated: that the access flags only gain bits, and the new state after each kind of event. Contracts mixing the 32-bit `|` of `Visit` with sequence facts outran the solver. The per-event contracts are on `Visit`, `VisitInnerClass`, `DeliverField` and `DeliverMethod`.
- `BinaryJavaClasses.BinaryJavaClass.Accept`: states only that member lists grow, for the same reason as `Deliver`.
- `BinaryJavaClasses.BinaryJavaClass.DeliverMethod`: on a failure, does not state whether the member was appended before its annotation events failed, and does not name the scope its annotations are resolved in beyond its existence.
- `SignatureParsing.TypeVariableRef`: its own contract covers a successful read only. The `ClsFormatException` for a reference that reaches the end before `;` or `>` is stated by `UnterminatedTypeVariableRef`, and the converse by `TerminatedTypeVariableRef`.
- `SignatureParsing.TypeString`: its own contract covers a successful read only. The `ClsFormatException` for a character that starts no production is stated by `NoProductionRejected`.
- `BinaryJavaClasses.Load`: states the identity of the loaded object, not its contents. Its contents follow from `Accept` and the per-event methods.
- `BinaryJavaClasses.BinaryJavaClass.FindInnerClass`: does not state that the new class starts from the recorded access flags, because the loaded object's state after `Accept` is only partly specified.
- `JavaStructure.ForkAndBind`: states that a write to the copy leaves the original unchanged. The converse (a write to the original after the copy) follows from the two being distinct objects, and is not stated separately.
- `CharacterIterators`: `StringCharacterIterator` is modelled only in the forward direction the parsers use (`current`, `next`).
- `CanonicalText.RoundTrip`: is stated for types whose names are made of name characters. A name containing a stop character or `<`/`[` has no rendering that can be read back.
- The corrected argument loop of the canonical-text parser needs an error message that the source never produces. `UNEXPECTED_ARGUMENT` is this model's own.

## Findings

| source | as written | input that shows it | evidently intended | confidence | as-written member | corrected member |
|---|---|---|---|---|---|---|
| compiler/frontend.java/src/org/jetbrains/kotlin/load/java/structure/impl/classFiles/BinaryJavaClass.kt:127-129 | the supertypes loop adds whatever `parseTopLevelClassRefSignature` returns until the end, but a character that starts no class reference makes it return null without moving the cursor | class signature `X` (any stray character after the type parameters): the loop never ends | reject such a signature with `ClsFormatException` | not executed | BinaryJavaClasses.StraySupertypeCharacter | BinaryJavaClasses.CorrectedLoopAgrees |
| compiler/frontend.java/src/org/jetbrains/kotlin/load/java/structure/impl/JavaTypesByCanonicalText.kt:105-126 | the `else` branch of `parseArgs` reads a classifier type that consumes nothing at `&`, then loops at the same index, adding an empty type each time | canonical text `A<B&C>`: the loop stays at index 3 for ever | reject the text with an `IllegalStateException` | not executed | CanonicalText.AsWrittenArgsStall | CanonicalText.CorrectedArgsAgree |
| js/js.inliner/src/org/jetbrains/kotlin/js/dce/DeadCodeElimination.kt:508-511 | when a qualifier's root was already visited, the fallback adds `Fqn(root, qualifierPath)`, dropping the path accumulated so far | roots 0 → (1, `a`), 1 → (2, `b`), (2, `c`): the names of root 0 are `2.b.a` and `2.c` | add `Fqn(root, qualifierPath + path)`, so that every name ends with the path it stands for | not executed | DeadCodeElimination.DiamondDropsPath | DeadCodeElimination.CollectedPathsEndWithPath |

The `FqnRoots` collection methods (`CollectRootFqNamesImpl`, `CollectRootFqNames`, `CollectFqnRootFqNames`) take the same `asWritten` switch as `Collect`. With `true` they compute what the code computes; with `false`, the corrected fallback.
