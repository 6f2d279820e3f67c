/** Annotations read from class files, and the `ClassId` of a class reached through a resolver: the
    class identifier is built along the chain of outer classes, and an annotation whose class cannot be
    identified that way falls back to a top-level identifier made from its dotted name. */
module Annotations {
  import opened Wrappers
  import opened FqNames
  import opened InternalNames
  import opened JavaStructure

  /** The index of the first `c` at or after `i`, or `|s|` when there is none. */
  function IndexOf(s: string, i: nat, c: char): (k: nat)
    requires i <= |s|
    ensures i <= k <= |s|
    ensures forall j :: i <= j < k ==> s[j] != c
    ensures k < |s| ==> s[k] == c
    decreases |s| - i
  {
    if i == |s| || s[i] == c then i else IndexOf(s, i + 1, c)
  }

  /** `Type.getType(desc).internalName` for the object-type descriptors annotations carry: the text
      between the leading 'L' and the first ';'. Any other descriptor is its own internal name. */
  function DescriptorInternalName(desc: string): string {
    if |desc| > 0 && desc[0] == 'L' then desc[1..IndexOf(desc, 1, ';')] else desc
  }

  /** The internal name an object-type descriptor was written from is recovered exactly. */
  lemma DescriptorRoundTrip(n: string)
    requires ';' !in n
    ensures DescriptorInternalName("L" + n + ";") == n
  {
    var d := "L" + n + ";";
    assert forall j :: 1 <= j < |n| + 1 ==> d[j] == n[j - 1];
    assert d[|n| + 1] == ';';
    assert IndexOf(d, 1, ';') == |n| + 1;
    assert d[1..|n| + 1] == n;
  }

  /** `JavaClass.classId()`: absent when the class or any class it is nested in has no qualified name;
      a top-level identifier for a class that is not nested; otherwise the outer class's package, and
      the outer class's relative name extended by this class's simple name. */
  function ClassIdOf(c: ClassView): (id: Option<ClassId>)
    ensures c.fqName.None? ==> id.None?
    ensures id.Some? ==> !id.value.isLocal
    decreases c
  {
    if c.fqName.None? then None
    else if c.outerClass.None? then Some(TopLevel(c.fqName.value))
    else
      match ClassIdOf(c.outerClass.value)
      case None => None
      case Some(outerId) => Some(ClassId(outerId.packageFqName, Child(outerId.relativeClassName, c.name), false))
  }

  /** Every class along the chain of outer classes has a qualified name. */
  predicate NamedChain(c: ClassView)
    decreases c
  {
    c.fqName.Some? && (c.outerClass.Some? ==> NamedChain(c.outerClass.value))
  }

  /** The top-level class a class is nested in, or the class itself. */
  function Outermost(c: ClassView): (t: ClassView)
    ensures t.outerClass.None?
    ensures NamedChain(c) ==> t.fqName.Some?
    decreases c
  {
    if c.outerClass.None? then c else Outermost(c.outerClass.value)
  }

  /** The simple names of the nested classes from just inside the top-level class down to `c`. */
  function NestedNames(c: ClassView): seq<string>
    decreases c
  {
    if c.outerClass.None? then [] else NestedNames(c.outerClass.value) + [c.name]
  }

  /** `base.child(n1).child(n2)...` */
  function JoinNames(base: string, names: seq<string>): string
    decreases |names|
  {
    if names == [] then base else Child(JoinNames(base, names[..|names| - 1]), names[|names| - 1])
  }

  /** The class identifier of a class nested in top-level class `T`: present exactly when the whole chain
      is named; its package is the package of `T`, and its relative name is the short name of `T`
      followed by the simple names of the nested classes, outermost first. */
  lemma {:induction false} ClassIdOfChain(c: ClassView)
    ensures ClassIdOf(c).Some? <==> NamedChain(c)
    ensures NamedChain(c) ==>
              var top := Outermost(c).fqName.value;
              ClassIdOf(c) == Some(ClassId(Parent(top), JoinNames(ShortName(top), NestedNames(c)), false))
    decreases c
  {
    if c.fqName.Some? && c.outerClass.Some? {
      var o := c.outerClass.value;
      ClassIdOfChain(o);
      var ns := NestedNames(c);
      assert ns[..|ns| - 1] == NestedNames(o);
    }
  }

  /** `BinaryJavaAnnotation(desc, resolver)`: the annotation's class is looked up, when it is queried,
      by the internal name of its descriptor in the scope the annotation was read in. */
  datatype BinaryJavaAnnotation = BinaryJavaAnnotation(desc: string, resolver: ClassifierResolver)
  {
    /** The resolved classifier and the dotted name it was looked up by. */
    function JavaClass(): (Option<Classifier>, string)
      reads resolver
    {
      resolver.ResolveByInternalName(DescriptorInternalName(desc))
    }

    /** `resolve()`: the class the annotation names, when the name resolves to a class. */
    function Resolve(): (c: Option<ClassView>)
      reads resolver
      ensures c.Some? <==> JavaClass().0.Some? && JavaClass().0.value.ClassClassifier?
    {
      match JavaClass().0
      case Some(ClassClassifier(k)) => Some(k)
      case _ => None
    }

    /** `classId`: the identifier of the resolved class when it has one; otherwise, also when the name
        resolves to a type parameter or to nothing, the top-level identifier of the dotted name. */
    function AnnotationClassId(): (id: ClassId)
      reads resolver
      ensures Resolve().Some? && ClassIdOf(Resolve().value).Some? ==> id == ClassIdOf(Resolve().value).value
      ensures Resolve().None? || ClassIdOf(Resolve().value).None? ==>
                id == TopLevel(InternalNameToFqName(DescriptorInternalName(desc)))
    {
      match Resolve()
      case Some(k) =>
        (match ClassIdOf(k)
         case Some(id) => id
         case None => TopLevel(JavaClass().1))
      case None => TopLevel(JavaClass().1)
    }
  }

  /** An annotation on a class the resolver cannot find is identified by its descriptor alone: the package
      is everything before the last segment of the dotted internal name, and the class is that segment. */
  lemma UnresolvedAnnotationClassId(n: string, resolver: ClassifierResolver)
    requires ';' !in n
    requires InternalNameToFqName(n) !in resolver.typeParameters
    requires resolver.classes(InternalNameToFqName(n)).None?
    ensures var id := BinaryJavaAnnotation("L" + n + ";", resolver).AnnotationClassId();
            id.packageFqName == Parent(InternalNameToFqName(n)) &&
            id.relativeClassName == ShortName(InternalNameToFqName(n)) && !id.isLocal
  {
    DescriptorRoundTrip(n);
  }
}
