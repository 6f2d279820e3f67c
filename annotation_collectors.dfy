/** `AnnotationsCollectorMethodVisitor`: the visitor the class reader feeds with the annotations of one
    method or constructor. It attaches each annotation, read in the member's own resolver scope, to the
    member or to one of its value parameters. */
module AnnotationCollectors {
  import opened Wrappers
  import opened JavaStructure
  import opened Annotations
  import opened JavaMembers

  /** The value parameter a parameter annotation at declared position `parameter` belongs to: the
      position shifted down by the number of leading synthetic parameters the member omits, `None`
      when that is negative, and an `IndexOutOfBoundsException` past the last parameter. */
  function ParameterIndex(parameter: int, parametersToSkipNumber: int, count: nat): (r: Result<Option<nat>, Failure>)
    ensures r == Failure(IndexOutOfBoundsException) <==> parameter - parametersToSkipNumber >= count
    ensures r == Success(None) <==> parameter < parametersToSkipNumber
    ensures r.Success? && r.value.Some? ==> r.value.value + parametersToSkipNumber == parameter && r.value.value < count
  {
    var index := parameter - parametersToSkipNumber;
    if index < 0 then Success(None)
    else if index >= count then Failure(IndexOutOfBoundsException)
    else Success(Some(index))
  }

  class AnnotationsCollectorMethodVisitor {
    const member: BinaryJavaMember
    const resolver: ClassifierResolver
    const parametersToSkipNumber: int

    constructor (member: BinaryJavaMember, resolver: ClassifierResolver, parametersToSkipNumber: int)
      ensures this.member == member && this.resolver == resolver
      ensures this.parametersToSkipNumber == parametersToSkipNumber
    {
      this.member := member;
      this.resolver := resolver;
      this.parametersToSkipNumber := parametersToSkipNumber;
    }

    /** `visitAnnotationDefault`: marks a method as having a default value; a constructor is left alone. */
    method VisitAnnotationDefault()
      modifies member
      ensures member.hasAnnotationParameterDefaultValue
              == (old(member.hasAnnotationParameterDefaultValue) || member.kind.MethodKind?)
      ensures member.annotations == old(member.annotations)
    {
      if member.kind.MethodKind? {
        member.hasAnnotationParameterDefaultValue := true;
      }
    }

    /** `visitAnnotation`: exactly one annotation, in this visitor's scope, is appended to the member. */
    method VisitAnnotation(desc: string, visible: bool)
      modifies member
      ensures member.annotations == old(member.annotations) + [BinaryJavaAnnotation(desc, resolver)]
      ensures member.hasAnnotationParameterDefaultValue == old(member.hasAnnotationParameterDefaultValue)
    {
      member.annotations := member.annotations + [BinaryJavaAnnotation(desc, resolver)];
    }

    /** `visitParameterAnnotation`: the annotation goes to the value parameter `ParameterIndex` selects and
        to no other; a position before the first real parameter is ignored, and one past the last is an
        `IndexOutOfBoundsException` that leaves everything as it was. */
    method VisitParameterAnnotation(parameter: int, desc: string, visible: bool) returns (res: Result<(), Failure>)
      requires member.Valid()
      modifies member.valueParameters
      ensures var idx := ParameterIndex(parameter, parametersToSkipNumber, |member.valueParameters|);
              match idx
              case Failure(e) => res == Failure(e)
              case Success(_) => res == Success(())
      ensures var idx := ParameterIndex(parameter, parametersToSkipNumber, |member.valueParameters|);
              forall k :: 0 <= k < |member.valueParameters| ==>
                member.valueParameters[k].annotations
                == old(member.valueParameters[k].annotations)
                   + (if idx == Success(Some(k)) then [BinaryJavaAnnotation(desc, resolver)] else [])
    {
      var index := parameter - parametersToSkipNumber;
      if index < 0 {
        return Success(());
      }
      if index >= |member.valueParameters| {
        return Failure(IndexOutOfBoundsException);
      }
      var p := member.valueParameters[index];
      p.annotations := p.annotations + [BinaryJavaAnnotation(desc, resolver)];
      res := Success(());
    }
  }
}
