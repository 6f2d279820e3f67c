/** The members a class file contributes: methods and constructors, their value parameters, and fields.
    Their types and names are fixed when they are built; their annotation collections, and a method's
    default-value flag, are filled in afterwards by the visitors of the class reader. */
module JavaMembers {
  import opened JavaStructure
  import opened Annotations

  /** `BinaryJavaValueParameter(null, type, isVararg)`; parameters read from class files have no name. */
  class BinaryJavaValueParameter {
    const paramType: JavaType
    const isVararg: bool
    var annotations: seq<BinaryJavaAnnotation>

    constructor (paramType: JavaType, isVararg: bool)
      ensures this.paramType == paramType && this.isVararg == isVararg && annotations == []
    {
      this.paramType := paramType;
      this.isVararg := isVararg;
      annotations := [];
    }
  }

  /** A member's name: an identifier, or `SpecialNames.NO_NAME_PROVIDED`, which constructors carry. */
  datatype MemberName = Identifier(identifier: string) | NoNameProvided

  /** `BinaryJavaMethod`, which has a return type, or `BinaryJavaConstructor`, which has none. */
  datatype MemberKind = MethodKind(returnType: JavaType) | ConstructorKind

  /** `BinaryJavaMethodBase` with its two subclasses. */
  class BinaryJavaMember {
    const access: AccessFlags
    const kind: MemberKind
    const name: MemberName
    const valueParameters: seq<BinaryJavaValueParameter>
    const typeParameters: seq<TypeParameter>
    var annotations: seq<BinaryJavaAnnotation>
    /** Only ever set on methods. */
    var hasAnnotationParameterDefaultValue: bool

    /** Value parameters are distinct objects, so annotating one leaves the others alone. */
    predicate Valid() {
      forall i, j :: 0 <= i < j < |valueParameters| ==> valueParameters[i] != valueParameters[j]
    }

    /** `BinaryJavaMethod(...)` for a method kind, `BinaryJavaConstructor(...)` for a constructor: the
        constructor's name is always `NO_NAME_PROVIDED`. */
    constructor (access: AccessFlags, kind: MemberKind, methodName: string,
                 valueParameters: seq<BinaryJavaValueParameter>, typeParameters: seq<TypeParameter>)
      ensures this.access == access && this.kind == kind
      ensures name == if kind.ConstructorKind? then NoNameProvided else Identifier(methodName)
      ensures this.valueParameters == valueParameters && this.typeParameters == typeParameters
      ensures annotations == [] && !hasAnnotationParameterDefaultValue
    {
      this.access := access;
      this.kind := kind;
      name := if kind.ConstructorKind? then NoNameProvided else Identifier(methodName);
      this.valueParameters := valueParameters;
      this.typeParameters := typeParameters;
      annotations := [];
      hasAnnotationParameterDefaultValue := false;
    }
  }

  /** `BinaryJavaField(name, access, containingClass, isEnumEntry, type, initializerValue)`. */
  class BinaryJavaField {
    const name: string
    const access: AccessFlags
    const isEnumEntry: bool
    const fieldType: JavaType
    var annotations: seq<BinaryJavaAnnotation>

    constructor (name: string, access: AccessFlags, isEnumEntry: bool, fieldType: JavaType)
      ensures this.name == name && this.access == access && this.isEnumEntry == isEnumEntry
      ensures this.fieldType == fieldType && annotations == []
    {
      this.name := name;
      this.access := access;
      this.isEnumEntry := isEnumEntry;
      this.fieldType := fieldType;
      annotations := [];
    }
  }
}
