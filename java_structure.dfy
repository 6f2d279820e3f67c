/** The structural model shared by both type parsers and the class builder: Java types, type parameters,
    classifiers, access flags, and the scoped classifier resolver that type references are resolved
    through when they are queried. */
module JavaStructure {
  import opened Wrappers
  import opened InternalNames

  /** The exceptions the modelled code can throw. */
  datatype Failure =
    | ClsFormatException
    | IllegalStateException(message: string)
    | AssertionError(message: string)
    | StringIndexOutOfBoundsException
    | IndexOutOfBoundsException
    | UninitializedPropertyAccessException(property: string)

  /** Access flags as the JVM stores them: 32-bit masks (ASM's `Opcodes.ACC_*`). */
  type AccessFlags = bv32

  const ACC_STATIC: AccessFlags := 0x0008
  const ACC_BRIDGE: AccessFlags := 0x0040
  const ACC_VARARGS: AccessFlags := 0x0080
  const ACC_INTERFACE: AccessFlags := 0x0200
  const ACC_SYNTHETIC: AccessFlags := 0x1000
  const ACC_ANNOTATION: AccessFlags := 0x2000
  const ACC_ENUM: AccessFlags := 0x4000

  /** `access.isSet(flag)` */
  predicate IsSet(access: AccessFlags, flag: AccessFlags) {
    access & flag != 0
  }

  datatype PrimitiveKind = Boolean | Char | Byte | Short | Int | Float | Long | Double

  /** How a deferred classifier reference is looked up in its resolver when queried:
      `resolve(name)` for a dotted name or a type variable, `resolveByInternalName(name)` for a
      slash-separated internal name. */
  datatype Lookup = ByName(name: string) | ByInternalName(internalName: string)

  /** The classifier of a classifier type. `Deferred` is the lazily evaluated closure over a resolver
      scope of a type read from a class file (the scope is a live handle: bindings added to it after
      parsing are seen); `ByFqName` is a type built from canonical text, looked up by whoever queries it. */
  datatype ClassifierRef =
    | Deferred(scope: ClassifierResolver, lookup: Lookup)
    | ByFqName(qName: string)

  datatype JavaType =
    | JavaPrimitiveType(kind: Option<PrimitiveKind>)   // None encodes void
    | JavaArrayType(componentType: JavaType)
    | JavaClassifierType(classifier: ClassifierRef, typeArguments: seq<JavaType>)
    /** The one shared `java.lang.Object` classifier type of a signature parsing component, resolved
        through the component's own resolver `scope`; the source compares it by identity. */
    | JavaLangObject(scope: ClassifierResolver)
    | JavaWildcardType(bound: Option<JavaType>, isExtends: bool)
  {
    predicate IsClassifierType() {
      JavaClassifierType? || JavaLangObject?
    }
  }

  /** `BinaryJavaTypeParameter(name, bounds)`: an empty bounds list stands for the implicit
      `java.lang.Object` bound. */
  datatype TypeParameter = TypeParameter(name: string, upperBounds: seq<JavaType>)

  /** What a query can learn about a class it did not build: its qualified name (absent for classes
      without one), simple name, outer class and type parameters. */
  datatype ClassView = ClassView(fqName: Option<string>, name: string, outerClass: Option<ClassView>,
                                 typeParameterNames: seq<string>)

  /** `JavaClassifier`: a type parameter or a class. */
  datatype Classifier = TypeParameterClassifier(typeParameter: TypeParameter) | ClassClassifier(javaClass: ClassView)

  function AsClassifier(c: Option<ClassView>): (r: Option<Classifier>)
    ensures r.Some? <==> c.Some?
    ensures c.Some? ==> r.value == ClassClassifier(c.value)
  {
    if c.Some? then Some(ClassClassifier(c.value)) else None
  }

  /** `ClassifierResolver(typeParameters, classes)`: a scope mapping type-parameter names to their
      declarations, in front of an external lookup of classes by qualified name. */
  class ClassifierResolver {
    var typeParameters: map<string, TypeParameter>
    const classes: string -> Option<ClassView>

    constructor (typeParameters: map<string, TypeParameter>, classes: string -> Option<ClassView>)
      ensures this.typeParameters == typeParameters && this.classes == classes
    {
      this.typeParameters := typeParameters;
      this.classes := classes;
    }

    /** `resolve(qName)`: the local type parameter bound to the name if there is one, otherwise what
        the external lookup finds; the second component is always the name asked for. Not finding
        anything is a legitimate answer, never an error. */
    function Resolve(qName: string): (r: (Option<Classifier>, string))
      reads this
      ensures r.1 == qName
      ensures qName in typeParameters ==> r.0 == Some(TypeParameterClassifier(typeParameters[qName]))
      ensures qName !in typeParameters ==> r.0 == AsClassifier(classes(qName))
      ensures r.0.Some? && r.0.value.TypeParameterClassifier? ==> qName in typeParameters
    {
      (if qName in typeParameters then Some(TypeParameterClassifier(typeParameters[qName]))
       else AsClassifier(classes(qName)), qName)
    }

    /** `copy()`: a new scope with an equal, independent map and the same lookup. */
    method Copy() returns (c: ClassifierResolver)
      ensures fresh(c)
      ensures c.typeParameters == typeParameters && c.classes == classes
    {
      c := new ClassifierResolver(typeParameters, classes);
    }

    /** `typeParameters.put(name, tp)` */
    method Put(name: string, tp: TypeParameter)
      modifies this
      ensures typeParameters == old(typeParameters)[name := tp]
    {
      typeParameters := typeParameters[name := tp];
    }

    /** `mapInternalNameToFqName(name)`; `FqName(s).asString()` is `s` again. */
    function MapInternalNameToFqName(name: string): (fq: string)
      ensures |fq| == |name| && '/' !in fq
    {
      NoSlashInFqName(name);
      InternalNameToFqName(name)
    }

    /** `resolveByInternalName(c)`, and equally `convertInternalNameToJavaClassifier(c)`, which goes
        through an `FqName` and back to the same string. */
    function ResolveByInternalName(c: string): (r: (Option<Classifier>, string))
      reads this
      ensures r == Resolve(MapInternalNameToFqName(c))
      ensures r.1 == InternalNameToFqName(c)
    {
      Resolve(InternalNameToFqName(c))
    }
  }

  /** What a deferred classifier reference resolves to when it is queried, in the current state of its
      scope. */
  function ResolveDeferred(ref: ClassifierRef): (r: (Option<Classifier>, string))
    requires ref.Deferred?
    reads ref.scope
    ensures r.1 == match ref.lookup
                   case ByName(n) => n
                   case ByInternalName(n) => InternalNameToFqName(n)
  {
    match ref.lookup
    case ByName(n) => ref.scope.Resolve(n)
    case ByInternalName(n) => ref.scope.ResolveByInternalName(n)
  }

  /** The classifier of the shared `java.lang.Object` type: `resolver.resolve("java.lang.Object")`. */
  function ResolveObject(scope: ClassifierResolver): (r: (Option<Classifier>, string))
    reads scope
    ensures r.1 == "java.lang.Object"
  {
    scope.Resolve("java.lang.Object")
  }

  /** Forking a scope and binding a name in the fork leaves what the original resolves unchanged, for
      every name, and the fork sees the parent's bindings without their being supplied again. */
  method ForkAndBind(parent: ClassifierResolver, name: string, tp: TypeParameter) returns (child: ClassifierResolver)
    modifies {}
    ensures fresh(child)
    ensures forall n :: parent.Resolve(n) == old(parent.Resolve(n))
    ensures child.Resolve(name) == (Some(TypeParameterClassifier(tp)), name)
    ensures forall n :: n != name ==> child.Resolve(n) == parent.Resolve(n)
  {
    child := parent.Copy();
    child.Put(name, tp);
  }
}
