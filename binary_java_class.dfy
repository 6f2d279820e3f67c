/** `BinaryJavaClass`: the structure of one class file, built by a class reader that pushes the file's
    contents at it as a sequence of events (the header, inner-class entries, fields, methods and
    annotations). Members read their types in their own fork of the class's resolver scope; the class's
    own type parameters are bound in the class's scope, where every member sees them. */
module BinaryJavaClasses {
  import opened Wrappers
  import opened Sequences
  import opened CharacterIterators
  import opened FqNames
  import opened JavaStructure
  import opened SignatureParsing
  import opened Annotations
  import opened JavaMembers
  import opened AnnotationCollectors
  import opened Methods

  // ---------------------------------------------------------------------------------------------
  // The events a class reader delivers

  /** What the reader reports about one method or constructor, to the visitor `visitMethod` returns. */
  datatype MethodAnnotationEvent =
    | AnnotationDefault
    | Annotation(desc: string, visible: bool)
    | ParameterAnnotation(parameter: int, desc: string, visible: bool)

  /** One call the reader makes on the class visitor. Each field and method event carries the events of
      that member, fed to the visitor returned for it. */
  datatype ClassEvent =
    | Header(access: AccessFlags, name: string, signature: Option<string>, superName: Option<string>,
             interfaces: Option<seq<string>>)
    | InnerClassEntry(name: string, outerName: Option<string>, innerName: Option<string>, access: AccessFlags)
    | FieldEntry(access: AccessFlags, name: string, desc: string, signature: Option<string>,
                 annotationDescs: seq<string>)
    | MethodEntry(access: AccessFlags, name: string, desc: string, signature: Option<string>,
                  annotationEvents: seq<MethodAnnotationEvent>)
    | ClassAnnotation(desc: string, visible: bool)

  // ---------------------------------------------------------------------------------------------
  // The class signature (section 4.7.9.1 of the JVM specification): type parameters, then supertypes

  /** The supertypes loop of `parseClassSignature`, corrected: class references until the end of the
      signature, where a position at which no class reference starts is rejected. */
  function SupertypesLoop(o: ClassifierResolver, r: ClassifierResolver, s: string, i: nat, acc: seq<JavaType>)
    : (res: Result<seq<JavaType>, Failure>)
    requires i <= |s|
    ensures res.Success? ==> StartsWith(res.value, acc)
    ensures res.Success? ==> forall k :: |acc| <= k < |res.value| ==>
                               res.value[k].IsClassifierType() && ScopedBy(res.value[k], o, r)
    decreases |s| - i
  {
    if At(s, i) == DONE then Success(acc)
    else
      match TopLevelClassRef(o, r, s, i)
      case Failure(e) => Failure(e)
      case Success((None, _)) => Failure(ClsFormatException)
      case Success((Some(t), j)) => SupertypesLoop(o, r, s, j, acc + [t])
  }

  /** The supertypes of a class signature from index `i`: a first class reference, which may be absent,
      then the loop. */
  function ClassSupertypes(o: ClassifierResolver, r: ClassifierResolver, s: string, i: nat)
    : (res: Result<seq<JavaType>, Failure>)
    requires i <= |s|
    ensures res.Success? ==> forall k :: 0 <= k < |res.value| ==>
                               res.value[k].IsClassifierType() && ScopedBy(res.value[k], o, r)
  {
    match TopLevelClassRef(o, r, s, i)
    case Failure(e) => Failure(e)
    case Success((t, j)) => SupertypesLoop(o, r, s, j, if t.Some? then [t.value] else [])
  }

  /** The state of the supertypes loop as written: still running at a position with the supertypes so far,
      or finished with its result. */
  datatype LoopState = Running(pos: nat, supertypes: seq<JavaType>) | Finished(result: Result<seq<JavaType>, Failure>)

  predicate InBounds(s: string, st: LoopState) {
    st.Running? ==> st.pos <= |s|
  }

  /** One iteration of the supertypes loop as the source writes it: `addIfNotNull` of whatever
      `parseTopLevelClassRefSignature` returns, while the cursor is not at the end. */
  function AsWrittenSupertypeStep(o: ClassifierResolver, r: ClassifierResolver, s: string, st: LoopState)
    : (st': LoopState)
    requires InBounds(s, st)
    ensures InBounds(s, st')
  {
    match st
    case Finished(_) => st
    case Running(i, acc) =>
      if At(s, i) == DONE then Finished(Success(acc))
      else
        match TopLevelClassRef(o, r, s, i)
        case Failure(e) => Finished(Failure(e))
        case Success((t, j)) => Running(j, acc + if t.Some? then [t.value] else [])
  }

  /** The state after `n` iterations of the loop as written. */
  function AsWrittenIterate(o: ClassifierResolver, r: ClassifierResolver, s: string, st: LoopState, n: nat)
    : (st': LoopState)
    requires InBounds(s, st)
    ensures InBounds(s, st')
    decreases n
  {
    if n == 0 then st else AsWrittenIterate(o, r, s, AsWrittenSupertypeStep(o, r, s, st), n - 1)
  }

  /** The loop as written never finishes once it reaches a character that starts no class reference:
      `parseTopLevelClassRefSignature` returns null there without moving the cursor, so every further
      iteration sees the same position. */
  lemma {:induction false} AsWrittenSupertypesStall(o: ClassifierResolver, r: ClassifierResolver, s: string,
                                                    i: nat, acc: seq<JavaType>, n: nat)
    requires i < |s| && s[i] != 'L' && s[i] != 'T' && s[i] != DONE
    ensures AsWrittenIterate(o, r, s, Running(i, acc), n) == Running(i, acc)
    decreases n
  {
    if n > 0 {
      assert TopLevelClassRef(o, r, s, i) == Success((None, i));
      assert acc + [] == acc;
      AsWrittenSupertypesStall(o, r, s, i, acc, n - 1);
    }
  }

  /** A class signature with a stray character after its type parameters: the loop as written is stuck
      at index 0 of "X" for ever, while the corrected loop rejects the signature. */
  lemma StraySupertypeCharacter(o: ClassifierResolver, r: ClassifierResolver, n: nat)
    ensures TypeParametersDeclaration(o, r, "X", 0) == Success(([], 0))
    ensures TopLevelClassRef(o, r, "X", 0) == Success((None, 0))
    ensures AsWrittenIterate(o, r, "X", Running(0, []), n) == Running(0, [])
    ensures ClassSupertypes(o, r, "X", 0) == Failure(ClsFormatException)
  {
    AsWrittenSupertypesStall(o, r, "X", 0, [], n);
  }

  /** Wherever the loop as written does finish, the corrected loop gives the same result. */
  lemma {:induction false} CorrectedLoopAgrees(o: ClassifierResolver, r: ClassifierResolver, s: string,
                                               i: nat, acc: seq<JavaType>, n: nat)
    requires i <= |s|
    requires AsWrittenIterate(o, r, s, Running(i, acc), n).Finished?
    ensures SupertypesLoop(o, r, s, i, acc) == AsWrittenIterate(o, r, s, Running(i, acc), n).result
    decreases n
  {
    if n == 0 {
    } else if At(s, i) == DONE {
      FinishedStays(o, r, s, Finished(Success(acc)), n - 1);
    } else {
      match TopLevelClassRef(o, r, s, i)
      case Failure(e) =>
        FinishedStays(o, r, s, Finished(Failure(e)), n - 1);
      case Success((t, j)) =>
        if t.None? {
          assert i < |s| && s[i] != 'L' && s[i] != 'T';
          AsWrittenSupertypesStall(o, r, s, i, acc, n);
          assert false;
        } else {
          CorrectedLoopAgrees(o, r, s, j, acc + [t.value], n - 1);
        }
    }
  }

  lemma {:induction false} FinishedStays(o: ClassifierResolver, r: ClassifierResolver, s: string, st: LoopState, n: nat)
    requires st.Finished?
    ensures AsWrittenIterate(o, r, s, st, n) == st
    decreases n
  {
    if n > 0 {
      FinishedStays(o, r, s, st, n - 1);
    }
  }

  // ---------------------------------------------------------------------------------------------
  // Filters

  /** The methods `visitMethod` drops: synthetic and bridge methods, class initializers, and in an enum
      the constructors and the compiler-generated `values()` and `valueOf(String)`. */
  predicate SkipsMethod(access: AccessFlags, name: string, desc: string, isEnum: bool) {
    IsSet(access, ACC_SYNTHETIC) || IsSet(access, ACC_BRIDGE) || name == "<clinit>"
    || (isEnum && (name == "<init>"
                   || (name == "values" && StartsWith(desc, "()"))
                   || (name == "valueOf" && StartsWith(desc, "(Ljava/lang/String;)"))))
  }

  /** An inner-class entry is recorded when it is not synthetic, has both an inner and an outer name,
      and names this class as its outer class. */
  predicate RecordsInnerClass(myInternalName: string, outerName: Option<string>, innerName: Option<string>,
                              access: AccessFlags) {
    !IsSet(access, ACC_SYNTHETIC) && innerName.Some? && outerName.Some? && outerName.value == myInternalName
  }

  /** The classifier type `convertInternalNameToClassifierType` gives an internal name: a reference without
      type arguments, resolved by internal name in the class scope when queried. */
  function InternalClassType(r: ClassifierResolver, internalName: string): JavaType {
    JavaClassifierType(Deferred(r, ByInternalName(internalName)), [])
  }

  /** The file `findInnerClass` looks for: `Outer$Inner.class` next to `Outer.class`. */
  function InnerClassFileName(nameWithoutExtension: string, name: string): string {
    nameWithoutExtension + "$" + name + ".class"
  }

  /** Everything about a class other than its members. */
  datatype ClassHeader = ClassHeader(access: AccessFlags, fqName: Option<string>, myInternalName: Option<string>,
                                     typeParameters: Option<seq<TypeParameter>>, supertypes: Option<seq<JavaType>>,
                                     annotations: seq<BinaryJavaAnnotation>, innerClassNameToAccess: map<string, AccessFlags>)

  /** The visitor `visitField` returns: it attaches each annotation to the field, in the class scope. */
  class FieldAnnotationsVisitor {
    const field: BinaryJavaField
    const resolver: ClassifierResolver

    constructor (field: BinaryJavaField, resolver: ClassifierResolver)
      ensures this.field == field && this.resolver == resolver
    {
      this.field := field;
      this.resolver := resolver;
    }

    method VisitAnnotation(desc: string, visible: bool)
      modifies field
      ensures field.annotations == old(field.annotations) + [BinaryJavaAnnotation(desc, resolver)]
    {
      field.annotations := field.annotations + [BinaryJavaAnnotation(desc, resolver)];
    }
  }

  class BinaryJavaClass {
    /** `virtualFile.nameWithoutExtension`; the file itself and its directory are not modelled. */
    const nameWithoutExtension: string
    const outerClass: Option<BinaryJavaClass>
    const resolver: ClassifierResolver
    const component: SignatureParsingComponent

    var access: AccessFlags
    /** The `lateinit` properties, `None` until the header assigns them. */
    var fqName: Option<string>
    var myInternalName: Option<string>
    var typeParameters: Option<seq<TypeParameter>>
    var supertypes: Option<seq<JavaType>>

    var annotations: seq<BinaryJavaAnnotation>
    var methods: seq<BinaryJavaMember>
    var fields: seq<BinaryJavaField>
    var constructors: seq<BinaryJavaMember>
    var innerClassNameToAccess: map<string, AccessFlags>

    /** The object before the reader has delivered anything. */
    constructor (nameWithoutExtension: string, outerClass: Option<BinaryJavaClass>, resolver: ClassifierResolver,
                 component: SignatureParsingComponent, access: AccessFlags)
      ensures this.nameWithoutExtension == nameWithoutExtension && this.outerClass == outerClass
      ensures this.resolver == resolver && this.component == component
      ensures Header() == ClassHeader(access, None, None, None, None, [], map[])
      ensures methods == [] && fields == [] && constructors == []
    {
      this.nameWithoutExtension := nameWithoutExtension;
      this.outerClass := outerClass;
      this.resolver := resolver;
      this.component := component;
      this.access := access;
      fqName := None;
      myInternalName := None;
      typeParameters := None;
      supertypes := None;
      annotations := [];
      methods := [];
      fields := [];
      constructors := [];
      innerClassNameToAccess := map[];
    }

    function Header(): ClassHeader
      reads this
    {
      ClassHeader(access, fqName, myInternalName, typeParameters, supertypes, annotations, innerClassNameToAccess)
    }

    predicate IsInterface()
      reads this
    {
      IsSet(access, ACC_INTERFACE)
    }

    predicate IsAnnotationType()
      reads this
    {
      IsSet(access, ACC_ANNOTATION)
    }

    predicate IsEnum()
      reads this
    {
      IsSet(access, ACC_ENUM)
    }

    predicate IsStatic()
      reads this
    {
      IsSet(access, ACC_STATIC)
    }

    /** `innerClassNames` */
    function InnerClassNames(): (names: set<string>)
      reads this
      ensures forall n :: n in names <==> n in innerClassNameToAccess
    {
      innerClassNameToAccess.Keys
    }

    /** `name`: the short name of the qualified name, which must have been assigned. */
    function Name(): (r: Result<string, Failure>)
      reads this
      ensures fqName.None? <==> r == Failure(UninitializedPropertyAccessException("fqName"))
      ensures fqName.Some? ==> r.Success? && '.' !in r.value
                               && fqName.value == Parent(fqName.value) + (if |r.value| < |fqName.value| then "." else "") + r.value
    {
      if fqName.None? then Failure(UninitializedPropertyAccessException("fqName")) else Success(ShortName(fqName.value))
    }

    /** `visitMethod`: a method or constructor that is not filtered out is built, in a fresh fork of the
        class scope, and appended to `methods` or `constructors`; the returned visitor collects its
        annotations. Nothing else changes, and the class scope itself is left alone. */
    method VisitMethod(access: AccessFlags, name: string, desc: string, signature: Option<string>)
      returns (res: Result<Option<AnnotationsCollectorMethodVisitor>, Failure>)
      modifies this
      ensures Header() == old(Header()) && fields == old(fields)
      ensures resolver.typeParameters == old(resolver.typeParameters)
      ensures res.Success? && res.value.None? <==> SkipsMethod(access, name, desc, old(IsEnum()))
      ensures res.Failure? || res.value.None? ==> methods == old(methods) && constructors == old(constructors)
      ensures res.Success? && res.value.Some? ==>
                var v := res.value.value;
                var m := v.member;
                var info := MethodInfoOf(component.resolver, v.resolver, desc, signature);
                fresh(v) && fresh(m) && fresh(v.resolver) && m.Valid()
                && (forall i :: 0 <= i < |m.valueParameters| ==> fresh(m.valueParameters[i]))
                && v.resolver.classes == resolver.classes
                && v.resolver.typeParameters == BindAll(resolver.typeParameters, m.typeParameters)
                && info.Success? && m.typeParameters == info.value.typeParameters
                && m.access == access && m.annotations == []
                && (if name == "<init>"
                    then m.kind == ConstructorKind && constructors == old(constructors) + [m] && methods == old(methods)
                    else m.kind == MethodKind(info.value.returnType) && m.name == Identifier(name)
                         && methods == old(methods) + [m] && constructors == old(constructors))
                && v.parametersToSkipNumber
                   == (if name == "<init>" && outerClass.Some? && !old(IsStatic()) then 1 else 0)
                && Shapes(m.valueParameters)
                   == ParameterEntries(info.value.valueParameterTypes, |info.value.valueParameterTypes|,
                                       signature.None? && name == "<init>" && outerClass.Some? && !old(IsStatic()),
                                       IsSet(access, ACC_VARARGS))
    {
      if IsSet(access, ACC_SYNTHETIC) || IsSet(access, ACC_BRIDGE) || name == "<clinit>" {
        return Success(None);
      }
      var isEnum := IsEnum();
      if isEnum {
        if name == "<init>" {
          return Success(None);
        }
        if name == "values" && StartsWith(desc, "()") {
          return Success(None);
        }
        if name == "valueOf" && StartsWith(desc, "(Ljava/lang/String;)") {
          return Success(None);
        }
      }
      var added := AddMember(access, name, desc, signature);
      if added.Failure? {
        return Failure(added.error);
      }
      res := Success(Some(added.value));
    }

    /** The second half of `visitMethod`, for a member that is not filtered out: it is built in a fresh
        fork of the class scope and appended to `methods` or `constructors`. */
    method AddMember(access: AccessFlags, name: string, desc: string, signature: Option<string>)
      returns (res: Result<AnnotationsCollectorMethodVisitor, Failure>)
      modifies this
      ensures Header() == old(Header()) && fields == old(fields)
      ensures resolver.typeParameters == old(resolver.typeParameters)
      ensures res.Failure? ==> methods == old(methods) && constructors == old(constructors)
      ensures res.Success? ==>
                var v := res.value;
                var m := v.member;
                var info := MethodInfoOf(component.resolver, v.resolver, desc, signature);
                fresh(v) && fresh(m) && fresh(v.resolver) && m.Valid()
                && (forall i :: 0 <= i < |m.valueParameters| ==> fresh(m.valueParameters[i]))
                && v.resolver.classes == resolver.classes
                && v.resolver.typeParameters == BindAll(resolver.typeParameters, m.typeParameters)
                && info.Success? && m.typeParameters == info.value.typeParameters
                && m.access == access && m.annotations == []
                && (if name == "<init>"
                    then m.kind == ConstructorKind && constructors == old(constructors) + [m] && methods == old(methods)
                    else m.kind == MethodKind(info.value.returnType) && m.name == Identifier(name)
                         && methods == old(methods) + [m] && constructors == old(constructors))
                && v.parametersToSkipNumber
                   == (if name == "<init>" && outerClass.Some? && !old(IsStatic()) then 1 else 0)
                && Shapes(m.valueParameters)
                   == ParameterEntries(info.value.valueParameterTypes, |info.value.valueParameterTypes|,
                                       signature.None? && name == "<init>" && outerClass.Some? && !old(IsStatic()),
                                       IsSet(access, ACC_VARARGS))
    {
      var scope := resolver.Copy();
      var created := Create(name, access, desc, signature, outerClass.Some?, IsStatic(), scope, component);
      if created.Failure? {
        return Failure(created.error);
      }
      var (member, visitor) := created.value;
      if member.kind.MethodKind? {
        methods := methods + [member];
      } else {
        constructors := constructors + [member];
      }
      res := Success(visitor);
    }

    /** `visitInnerClass`: records the access flags of a nested class of this class under its short name.
        Comparing against the internal name before the header has assigned it is an error. */
    method VisitInnerClass(name: string, outerName: Option<string>, innerName: Option<string>, access: AccessFlags)
      returns (res: Result<(), Failure>)
      modifies this
      ensures methods == old(methods) && fields == old(fields) && constructors == old(constructors)
      ensures var skipped := IsSet(access, ACC_SYNTHETIC) || innerName.None? || outerName.None?;
              res.Failure? <==> !skipped && old(myInternalName).None?
      ensures res.Failure? ==> res.error == UninitializedPropertyAccessException("myInternalName")
      ensures var h := old(Header());
              Header() == if res.Success? && myInternalName.Some?
                             && RecordsInnerClass(myInternalName.value, outerName, innerName, access)
                          then h.(innerClassNameToAccess := h.innerClassNameToAccess[ShortName(resolver.MapInternalNameToFqName(name)) := access])
                          else h
    {
      if IsSet(access, ACC_SYNTHETIC) {
        return Success(());
      }
      if innerName.None? || outerName.None? {
        return Success(());
      }
      if myInternalName.None? {
        return Failure(UninitializedPropertyAccessException("myInternalName"));
      }
      if myInternalName.value == outerName.value {
        innerClassNameToAccess := innerClassNameToAccess[ShortName(resolver.MapInternalNameToFqName(name)) := access];
      }
      res := Success(());
    }

    /** `visit`, the class header: the access flags are merged into those the object was created with,
        the names are assigned, and the type parameters and supertypes come from the signature when there
        is one, and otherwise are none and the superclass followed by the interfaces. */
    method Visit(access: AccessFlags, name: string, signature: Option<string>, superName: Option<string>,
                 interfaces: Option<seq<string>>) returns (res: Result<(), Failure>)
      modifies this, resolver
      ensures this.access == old(this.access) | access
      ensures myInternalName == Some(name) && fqName == Some(resolver.MapInternalNameToFqName(name))
      ensures methods == old(methods) && fields == old(fields) && constructors == old(constructors)
      ensures annotations == old(annotations) && innerClassNameToAccess == old(innerClassNameToAccess)
      ensures signature.None? ==>
                var names := (if superName.Some? then [superName.value] else []) + interfaces.GetOr([]);
                res.Success? && resolver.typeParameters == old(resolver.typeParameters)
                && typeParameters == Some([])
                && supertypes == Some(seq(|names|, k requires 0 <= k < |names| => InternalClassType(resolver, names[k])))
      ensures signature.Some? ==> ParsedClassSignature(signature.value, res, old(resolver.typeParameters),
                                                       old(typeParameters), old(supertypes))
    {
      this.access := this.access | access;
      myInternalName := Some(name);
      fqName := Some(resolver.MapInternalNameToFqName(name));
      if signature.Some? {
        res := ParseClassSignature(signature.value);
      } else {
        DescriptorSupertypes(superName, interfaces);
        res := Success(());
      }
    }

    /** The header without a signature: no type parameters, and the superclass followed by the interfaces
        as the supertypes. */
    method DescriptorSupertypes(superName: Option<string>, interfaces: Option<seq<string>>)
      modifies this
      ensures var names := (if superName.Some? then [superName.value] else []) + interfaces.GetOr([]);
              typeParameters == Some([])
              && supertypes == Some(seq(|names|, k requires 0 <= k < |names| => InternalClassType(resolver, names[k])))
      ensures access == old(access) && fqName == old(fqName) && myInternalName == old(myInternalName)
      ensures methods == old(methods) && fields == old(fields) && constructors == old(constructors)
      ensures annotations == old(annotations) && innerClassNameToAccess == old(innerClassNameToAccess)
    {
      typeParameters := Some([]);
      var list: seq<JavaType> := [];
      if superName.Some? {
        list := list + [InternalClassType(resolver, superName.value)];
      }
      ghost var names := (if superName.Some? then [superName.value] else []) + interfaces.GetOr([]);
      ghost var first := |list|;
      if interfaces.Some? {
        for k := 0 to |interfaces.value|
          invariant |list| == first + k
          invariant forall j :: 0 <= j < |list| ==> list[j] == InternalClassType(resolver, names[j])
        {
          list := list + [InternalClassType(resolver, interfaces.value[k])];
        }
      }
      assert |list| == |names|;
      assert list == seq(|names|, k requires 0 <= k < |names| => InternalClassType(resolver, names[k]));
      supertypes := Some(list);
    }

    /** What parsing class signature `s` leaves behind, given the scope, type parameters and supertypes
        before: a type-parameter declaration that does not parse changes nothing; otherwise the type
        parameters are assigned and bound in the class scope, and then the supertypes are assigned unless
        they fail to parse. */
    ghost predicate ParsedClassSignature(s: string, res: Result<(), Failure>, scope0: map<string, TypeParameter>,
                                         typeParameters0: Option<seq<TypeParameter>>, supertypes0: Option<seq<JavaType>>)
      reads this, resolver
    {
      match TypeParametersDeclaration(component.resolver, resolver, s, 0)
      case Failure(e) =>
        res == Failure(e) && resolver.typeParameters == scope0
        && typeParameters == typeParameters0 && supertypes == supertypes0
      case Success((tps, i)) =>
        typeParameters == Some(tps) && resolver.typeParameters == BindAll(scope0, tps)
        && match ClassSupertypes(component.resolver, resolver, s, i)
           case Failure(e) => res == Failure(e) && supertypes == supertypes0
           case Success(sts) => res == Success(()) && supertypes == Some(sts)
    }

    /** `parseClassSignature`, with the supertypes loop corrected to reject a character that starts no
        class reference instead of looping on it. */
    method ParseClassSignature(signature: string) returns (res: Result<(), Failure>)
      modifies this, resolver
      ensures ParsedClassSignature(signature, res, old(resolver.typeParameters), old(typeParameters), old(supertypes))
      ensures access == old(access) && fqName == old(fqName) && myInternalName == old(myInternalName)
      ensures methods == old(methods) && fields == old(fields) && constructors == old(constructors)
      ensures annotations == old(annotations) && innerClassNameToAccess == old(innerClassNameToAccess)
    {
      var cursor := new Cursor(signature);
      var tps := component.ParseTypeParametersDeclaration(cursor, resolver);
      if tps.Failure? {
        return Failure(tps.error);
      }
      typeParameters := Some(tps.value);
      BindTypeParameters(resolver, tps.value);

      ghost var start := cursor.pos;
      ghost var spec := ClassSupertypes(component.resolver, resolver, signature, start);
      var list: seq<JavaType> := [];
      var first := component.ParseTopLevelClassRefSignature(cursor, resolver);
      if first.Failure? {
        return Failure(first.error);
      }
      if first.value.Some? {
        list := list + [first.value.value];
      }
      assert TopLevelClassRef(component.resolver, resolver, signature, start) == Success((first.value, cursor.pos));
      assert list == if first.value.Some? then [first.value.value] else [];
      assert spec == SupertypesLoop(component.resolver, resolver, signature, cursor.pos, list);
      while cursor.Current() != DONE
        modifies cursor
        invariant cursor.Valid() && cursor.text == signature
        invariant SupertypesLoop(component.resolver, resolver, signature, cursor.pos, list) == spec
        decreases |signature| - cursor.pos
      {
        var next := component.ParseTopLevelClassRefSignature(cursor, resolver);
        if next.Failure? {
          return Failure(next.error);
        }
        if next.value.None? {
          return Failure(ClsFormatException);
        }
        list := list + [next.value.value];
      }
      supertypes := Some(list);
      res := Success(());
    }

    /** `visitField`: a field that is not synthetic gets the type of its signature, or of its descriptor
        when it has none, read in the class scope, and is appended to `fields`; an enum constant is a field
        with `ACC_ENUM` set. */
    method VisitField(access: AccessFlags, name: string, desc: string, signature: Option<string>)
      returns (res: Result<Option<FieldAnnotationsVisitor>, Failure>)
      modifies this
      ensures Header() == old(Header()) && methods == old(methods) && constructors == old(constructors)
      ensures var parsed := Value(TypeString(component.resolver, resolver, signature.GetOr(desc), 0));
              if IsSet(access, ACC_SYNTHETIC) then res == Success(None) && fields == old(fields)
              else if parsed.Failure? then res == Failure(parsed.error) && fields == old(fields)
              else res.Success? && res.value.Some?
                   && var v := res.value.value;
                      fresh(v) && fresh(v.field) && v.resolver == resolver && fields == old(fields) + [v.field]
                      && v.field.name == name && v.field.access == access
                      && v.field.isEnumEntry == IsSet(access, ACC_ENUM)
                      && v.field.fieldType == parsed.value && v.field.annotations == []
    {
      if IsSet(access, ACC_SYNTHETIC) {
        return Success(None);
      }
      var cursor := new Cursor(signature.GetOr(desc));
      var fieldType := component.ParseTypeString(cursor, resolver);
      if fieldType.Failure? {
        return Failure(fieldType.error);
      }
      var field := new BinaryJavaField(name, access, IsSet(access, ACC_ENUM), fieldType.value);
      fields := fields + [field];
      var visitor := new FieldAnnotationsVisitor(field, resolver);
      res := Success(Some(visitor));
    }

    /** A field, with the annotations the reader reports for it: `visitField`, then each annotation
        given to the visitor it returned, so the field appended carries them in order. */
    method DeliverField(acc: AccessFlags, name: string, desc: string, signature: Option<string>,
                        annotationDescs: seq<string>) returns (res: Result<(), Failure>)
      modifies this
      ensures Grown(methods, constructors, fields, old(methods), old(constructors), old(fields))
      ensures Header() == old(Header()) && methods == old(methods) && constructors == old(constructors)
      ensures var parsed := Value(TypeString(component.resolver, resolver, signature.GetOr(desc), 0));
              if IsSet(acc, ACC_SYNTHETIC) then res == Success(()) && fields == old(fields)
              else if parsed.Failure? then res == Failure(parsed.error) && fields == old(fields)
              else res == Success(()) && |fields| == |old(fields)| + 1 && fields[..|old(fields)|] == old(fields)
                   && var f := fields[|old(fields)|];
                      fresh(f) && f.name == name && f.access == acc && f.isEnumEntry == IsSet(acc, ACC_ENUM)
                      && f.fieldType == parsed.value && f.annotations == FieldAnnotations(resolver, annotationDescs)
    {
      var r := VisitField(acc, name, desc, signature);
      if r.Failure? {
        return Failure(r.error);
      }
      if r.value.Some? {
        var visitor := r.value.value;
        assert fields[..|old(fields)|] == old(fields);
        for j := 0 to |annotationDescs|
          modifies visitor.field
          invariant visitor.field.annotations == FieldAnnotations(resolver, annotationDescs[..j])
        {
          assert annotationDescs[..j + 1][..j] == annotationDescs[..j];
          visitor.VisitAnnotation(annotationDescs[j], true);
        }
        assert annotationDescs[..|annotationDescs|] == annotationDescs;
      }
      res := Success(());
    }

    /** A method or constructor, with the annotation events the reader reports for it: `visitMethod`, then
        each event given to the visitor it returned, so the member appended carries the annotations in
        order, resolved in its own fork of the class scope. */
    method DeliverMethod(acc: AccessFlags, name: string, desc: string, signature: Option<string>,
                         annotationEvents: seq<MethodAnnotationEvent>) returns (res: Result<(), Failure>)
      modifies this
      ensures Grown(methods, constructors, fields, old(methods), old(constructors), old(fields))
      ensures Header() == old(Header()) && fields == old(fields)
      ensures SkipsMethod(acc, name, desc, old(IsEnum())) ==>
                res == Success(()) && methods == old(methods) && constructors == old(constructors)
      ensures !SkipsMethod(acc, name, desc, old(IsEnum())) && res.Success? ==>
                var added := if name == "<init>" then constructors else methods;
                var kept := if name == "<init>" then methods else constructors;
                kept == (if name == "<init>" then old(methods) else old(constructors))
                && |added| == |if name == "<init>" then old(constructors) else old(methods)| + 1
                && var m := added[|added| - 1];
                   fresh(m) && m.access == acc
                   && exists scope: ClassifierResolver :: m.annotations == MemberAnnotations(scope, annotationEvents)
    {
      var r := VisitMethod(acc, name, desc, signature);
      if r.Failure? {
        return Failure(r.error);
      }
      res := Success(());
      if r.value.Some? {
        var visitor := r.value.value;
        res := FeedMethodAnnotations(visitor, annotationEvents);
        assert res.Success? ==> visitor.member.annotations == MemberAnnotations(visitor.resolver, annotationEvents);
      }
    }

    /** One event of the reader, with the events of the field or method it announces. */
    method Deliver(event: ClassEvent) returns (res: Result<(), Failure>)
      modifies this, resolver
      ensures Grown(methods, constructors, fields, old(methods), old(constructors), old(fields))
    {
      match event
      case Header(acc, name, signature, superName, interfaces) =>
        res := Visit(acc, name, signature, superName, interfaces);
      case InnerClassEntry(name, outerName, innerName, acc) =>
        res := VisitInnerClass(name, outerName, innerName, acc);
      case FieldEntry(acc, name, desc, signature, annotationDescs) =>
        res := DeliverField(acc, name, desc, signature, annotationDescs);
      case MethodEntry(acc, name, desc, signature, annotationEvents) =>
        res := DeliverMethod(acc, name, desc, signature, annotationEvents);
      case ClassAnnotation(_, _) =>
        res := Success(());
    }

    /** The reader's delivery of a whole class file: each event goes to its handler, and the events of a
        field or method to the visitor returned for it. The first exception ends the reading. Members are
        only ever appended. */
    method Accept(events: seq<ClassEvent>) returns (res: Result<(), Failure>)
      modifies this, resolver
      ensures Grown(methods, constructors, fields, old(methods), old(constructors), old(fields))
    {
      for k := 0 to |events|
        invariant Grown(methods, constructors, fields, old(methods), old(constructors), old(fields))
      {
        ghost var methods0, constructors0, fields0 := methods, constructors, fields;
        var r := Deliver(events[k]);
        GrownTrans(methods, constructors, fields, methods0, constructors0, fields0,
                   old(methods), old(constructors), old(fields));
        if r.Failure? {
          return r;
        }
      }
      res := Success(());
    }

    /** `findInnerClass`: a nested class recorded under `name` whose file exists is read from that file, as
        a class whose outer class is this one, in a fork of this class's scope, starting from the access
        flags the inner-class entry recorded. A name never recorded finds nothing. */
    method FindInnerClass(name: string, directory: string -> Option<seq<ClassEvent>>)
      returns (res: Result<Option<BinaryJavaClass>, Failure>)
      ensures name !in innerClassNameToAccess ==> res == Success(None)
      ensures name in innerClassNameToAccess && directory(InnerClassFileName(nameWithoutExtension, name)).None?
              ==> res == Success(None)
      ensures res.Success? && res.value.Some? ==>
                var c := res.value.value;
                fresh(c) && fresh(c.resolver) && c.outerClass == Some(this) && c.component == component
                && name in innerClassNameToAccess
                && c.nameWithoutExtension == nameWithoutExtension + "$" + name
    {
      if name !in innerClassNameToAccess {
        return Success(None);
      }
      var access := innerClassNameToAccess[name];
      var file := InnerClassFileName(nameWithoutExtension, name);
      var contents := directory(file);
      if contents.None? {
        return Success(None);
      }
      var scope := resolver.Copy();
      var c := Load(nameWithoutExtension + "$" + name, contents.value, Some(this), scope, component, access);
      if c.Failure? {
        return Failure(c.error);
      }
      res := Success(Some(c.value));
    }
  }

  lemma StartsWithTrans<T>(a: seq<T>, b: seq<T>, c: seq<T>)
    requires StartsWith(b, a) && StartsWith(a, c)
    ensures StartsWith(b, c)
  {
    assert b[..|c|] == a[..|c|];
  }

  /** Members only grow: each member list extends the earlier one. */
  predicate Grown(methods: seq<BinaryJavaMember>, constructors: seq<BinaryJavaMember>, fields: seq<BinaryJavaField>,
                  methods0: seq<BinaryJavaMember>, constructors0: seq<BinaryJavaMember>, fields0: seq<BinaryJavaField>)
  {
    StartsWith(methods, methods0) && StartsWith(constructors, constructors0) && StartsWith(fields, fields0)
  }

  lemma GrownTrans(m2: seq<BinaryJavaMember>, c2: seq<BinaryJavaMember>, f2: seq<BinaryJavaField>,
                   m1: seq<BinaryJavaMember>, c1: seq<BinaryJavaMember>, f1: seq<BinaryJavaField>,
                   m0: seq<BinaryJavaMember>, c0: seq<BinaryJavaMember>, f0: seq<BinaryJavaField>)
    requires Grown(m2, c2, f2, m1, c1, f1) && Grown(m1, c1, f1, m0, c0, f0)
    ensures Grown(m2, c2, f2, m0, c0, f0)
  {
    StartsWithTrans(m1, m2, m0);
    StartsWithTrans(c1, c2, c0);
    StartsWithTrans(f1, f2, f0);
  }

  /** Feeds the events of one method or constructor to its annotation visitor; an annotation on a
      parameter past the last one ends the reading with its exception. */
  method FeedMethodAnnotations(visitor: AnnotationsCollectorMethodVisitor, events: seq<MethodAnnotationEvent>)
    returns (res: Result<(), Failure>)
    requires visitor.member.Valid()
    modifies visitor.member, visitor.member.valueParameters
    ensures res.Success? ==> visitor.member.annotations
                             == old(visitor.member.annotations) + MemberAnnotations(visitor.resolver, events)
  {
    for k := 0 to |events|
      invariant visitor.member.annotations
                == old(visitor.member.annotations) + MemberAnnotations(visitor.resolver, events[..k])
    {
      assert events[..k + 1][..k] == events[..k];
      match events[k]
      case AnnotationDefault =>
        visitor.VisitAnnotationDefault();
      case Annotation(desc, visible) =>
        visitor.VisitAnnotation(desc, visible);
      case ParameterAnnotation(parameter, desc, visible) =>
        var r := visitor.VisitParameterAnnotation(parameter, desc, visible);
        if r.Failure? {
          return r;
        }
    }
    assert events[..|events|] == events;
    res := Success(());
  }

  /** The annotations a field's annotation descriptors become, in order, in the class scope. */
  function FieldAnnotations(resolver: ClassifierResolver, descs: seq<string>): (r: seq<BinaryJavaAnnotation>)
    ensures |r| == |descs|
    ensures forall k :: 0 <= k < |descs| ==> r[k] == BinaryJavaAnnotation(descs[k], resolver)
    decreases |descs|
  {
    if descs == [] then [] else FieldAnnotations(resolver, descs[..|descs| - 1]) + [BinaryJavaAnnotation(descs[|descs| - 1], resolver)]
  }

  /** The annotations a sequence of member events attaches to the member itself, in order. */
  function MemberAnnotations(resolver: ClassifierResolver, events: seq<MethodAnnotationEvent>)
    : (r: seq<BinaryJavaAnnotation>)
    ensures |r| <= |events|
    decreases |events|
  {
    if events == [] then []
    else
      MemberAnnotations(resolver, events[..|events| - 1])
      + match events[|events| - 1]
        case Annotation(desc, _) => [BinaryJavaAnnotation(desc, resolver)]
        case _ => []
  }

  /** `BinaryJavaClass(virtualFile, outerClass, resolver, component, access)`: the object, with the file
      read into it. */
  method Load(nameWithoutExtension: string, contents: seq<ClassEvent>, outerClass: Option<BinaryJavaClass>,
              resolver: ClassifierResolver, component: SignatureParsingComponent, access: AccessFlags)
    returns (res: Result<BinaryJavaClass, Failure>)
    modifies resolver
    ensures res.Success? ==> fresh(res.value) && res.value.resolver == resolver && res.value.outerClass == outerClass
                             && res.value.component == component && res.value.nameWithoutExtension == nameWithoutExtension
  {
    var c := new BinaryJavaClass(nameWithoutExtension, outerClass, resolver, component, access);
    var r := c.Accept(contents);
    if r.Failure? {
      return Failure(r.error);
    }
    res := Success(c);
  }
}
