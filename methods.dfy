/** `BinaryJavaMethodBase.create`: a method or constructor built from its generic signature when the class
    file has one, and from its plain descriptor otherwise. Its type parameters are bound in the member's
    own (forked) resolver scope, and its value parameters are built from the parsed parameter types, less
    the synthetic outer-instance parameter of an inner-class constructor. */
module Methods {
  import opened Wrappers
  import opened Sequences
  import opened CharacterIterators
  import opened JavaStructure
  import opened SignatureParsing
  import opened Annotations
  import opened JavaMembers
  import opened AnnotationCollectors

  /** `MethodInfo(returnType, typeParameters, valueParameterTypes)` */
  datatype MethodInfo = MethodInfo(returnType: JavaType, typeParameters: seq<TypeParameter>,
                                   valueParameterTypes: seq<JavaType>)

  // ---------------------------------------------------------------------------------------------
  // Splitting a method descriptor (what ASM's `Type.getArgumentTypes` and `Type.getReturnType` do)

  /** The index just past the field descriptor starting at `i` (section 4.3.2 of the JVM specification):
      array dimensions, then a class type up to its ';' or a one-letter type. */
  function FieldDescriptorEnd(d: string, i: nat): (j: nat)
    requires i < |d|
    ensures i < j <= |d|
    decreases |d| - i
  {
    if d[i] == '[' then (if i + 1 < |d| then FieldDescriptorEnd(d, i + 1) else |d|)
    else if d[i] == 'L' then (var k := IndexOf(d, i, ';'); if k < |d| then k + 1 else |d|)
    else i + 1
  }

  /** The argument descriptors from `i` up to the closing ')', and the index of that ')' (or of the end). */
  function ArgumentDescriptors(d: string, i: nat): (r: (seq<string>, nat))
    requires i <= |d|
    ensures i <= r.1 <= |d|
    ensures Flatten(r.0) == d[i..r.1]
    ensures r.1 < |d| ==> d[r.1] == ')'
    ensures forall a :: a in r.0 ==> a != []
    decreases |d| - i
  {
    if i == |d| || d[i] == ')' then ([], i)
    else
      var j := FieldDescriptorEnd(d, i);
      var rest := ArgumentDescriptors(d, j);
      var args := [d[i..j]] + rest.0;
      assert args[1..] == rest.0;
      assert d[i..rest.1] == d[i..j] + d[j..rest.1];
      (args, rest.1)
  }

  /** A method descriptor `(A1...An)R` split into the argument descriptors and the return descriptor. */
  function SplitMethodDescriptor(d: string): (r: (seq<string>, string))
  {
    if d == [] then ([], [])
    else
      var r := ArgumentDescriptors(d, 1);
      (r.0, if r.1 < |d| then d[r.1 + 1..] else [])
  }

  /** The pieces a descriptor with a closing ')' is split into put it back together. */
  lemma SplitRoundTrip(d: string)
    requires |d| > 0 && d[0] == '(' && ArgumentDescriptors(d, 1).1 < |d|
    ensures d == "(" + Flatten(SplitMethodDescriptor(d).0) + ")" + SplitMethodDescriptor(d).1
  {
    var r := ArgumentDescriptors(d, 1);
    calc {
      "(" + Flatten(SplitMethodDescriptor(d).0) + ")" + SplitMethodDescriptor(d).1;
    == { assert SplitMethodDescriptor(d).0 == r.0 && SplitMethodDescriptor(d).1 == d[r.1 + 1..]; }
      "(" + Flatten(r.0) + ")" + d[r.1 + 1..];
    ==
      "(" + d[1..r.1] + ")" + d[r.1 + 1..];
    == { Parenthesized(d, r.1); }
      d;
    }
  }

  lemma Parenthesized(d: string, k: nat)
    requires 0 < k < |d| && d[0] == '(' && d[k] == ')'
    ensures d == "(" + d[1..k] + ")" + d[k + 1..]
  {
    assert d[..1] == "(" && d[k..k + 1] == ")";
    assert d[..k] == d[..1] + d[1..k];
    assert d[k..] == d[k..k + 1] + d[k + 1..];
    assert d == d[..k] + d[k..];
  }


  // ---------------------------------------------------------------------------------------------
  // The specification: `parseMethodDescription` and `parseMethodSignature`

  /** The types of the argument descriptors, parsed left to right; the first one that does not parse
      decides the failure. */
  function DescriptorTypes(o: ClassifierResolver, r: ClassifierResolver, args: seq<string>)
    : (res: Result<seq<JavaType>, Failure>)
    ensures res.Success? ==> |res.value| == |args|
    ensures res.Success? ==> forall k :: 0 <= k < |args| ==> Value(TypeString(o, r, args[k], 0)) == Success(res.value[k])
    ensures res.Failure? ==> exists k :: 0 <= k < |args| && Value(TypeString(o, r, args[k], 0)) == Failure(res.error)
    decreases |args|
  {
    if args == [] then Success([])
    else
      var front := args[..|args| - 1];
      match DescriptorTypes(o, r, front)
      case Failure(e) => Failure(e)
      case Success(ts) =>
        match Value(TypeString(o, r, args[|args| - 1], 0))
        case Failure(e) => Failure(e)
        case Success(t) => Success(ts + [t])
  }

  /** `parseMethodDescription`: the return descriptor is parsed first, then the argument descriptors; a
      descriptor declares no type parameters. */
  function MethodDescription(o: ClassifierResolver, r: ClassifierResolver, desc: string)
    : (res: Result<MethodInfo, Failure>)
    ensures res.Success? ==> res.value.typeParameters == []
    ensures res.Success? ==> Value(TypeString(o, r, SplitMethodDescriptor(desc).1, 0)) == Success(res.value.returnType)
    ensures res.Success? ==> DescriptorTypes(o, r, SplitMethodDescriptor(desc).0) == Success(res.value.valueParameterTypes)
  {
    var (args, ret) := SplitMethodDescriptor(desc);
    match Value(TypeString(o, r, ret, 0))
    case Failure(e) => Failure(e)
    case Success(returnType) =>
      match DescriptorTypes(o, r, args)
      case Failure(e) => Failure(e)
      case Success(ts) => Success(MethodInfo(returnType, [], ts))
  }

  /** The parameter loop of `parseMethodSignature`: type strings up to a ')' or the end of the input. */
  function SignatureParameters(o: ClassifierResolver, r: ClassifierResolver, s: string, i: nat, acc: seq<JavaType>)
    : (res: Parsed<seq<JavaType>>)
    requires i <= |s|
    ensures res.Success? ==> i <= res.value.1 <= |s| && (At(s, res.value.1) == ')' || At(s, res.value.1) == DONE)
    ensures res.Success? ==> StartsWith(res.value.0, acc)
    ensures res.Success? && (At(s, i) == ')' || At(s, i) == DONE) ==> res.value == (acc, i)
    ensures res.Success? && AllScoped(acc, o, r) ==> AllScoped(res.value.0, o, r)
    decreases |s| - i
  {
    if At(s, i) == ')' || At(s, i) == DONE then Success((acc, i))
    else
      match TypeString(o, r, s, i)
      case Failure(e) => Failure(e)
      case Success((t, j)) => SignatureParameters(o, r, s, j, acc + [t])
  }

  /** `parseMethodSignature`: optional type parameters, then '(' parameters ')', then the return type.
      Whatever follows the return type (the thrown exceptions) is not read. */
  function MethodSignature(o: ClassifierResolver, r: ClassifierResolver, s: string): (res: Result<MethodInfo, Failure>)
    ensures TypeParametersDeclaration(o, r, s, 0).Success? ==>
              var i := TypeParametersDeclaration(o, r, s, 0).value.1;
              At(s, i) != '(' ==> res == Failure(ClsFormatException)
    ensures res.Success? ==> TypeParametersDeclaration(o, r, s, 0).Success?
                             && res.value.typeParameters == TypeParametersDeclaration(o, r, s, 0).value.0
    ensures res.Success? ==> ScopedBy(res.value.returnType, o, r) && AllScoped(res.value.valueParameterTypes, o, r)
  {
    match TypeParametersDeclaration(o, r, s, 0)
    case Failure(e) => Failure(e)
    case Success((tps, i)) =>
      if At(s, i) != '(' then Failure(ClsFormatException)
      else
        match SignatureParameters(o, r, s, Advance(s, i), [])
        case Failure(e) => Failure(e)
        case Success((ps, k)) =>
          if At(s, k) != ')' then Failure(ClsFormatException)
          else
            match TypeString(o, r, s, Advance(s, k))
            case Failure(e) => Failure(e)
            case Success((ret, _)) => Success(MethodInfo(ret, tps, ps))
  }

  /** The parameter list runs to a ')': a signature whose input ends first is rejected. */
  lemma UnclosedParameterList(o: ClassifierResolver, r: ClassifierResolver, s: string, i: nat)
    requires TypeParametersDeclaration(o, r, s, 0).Success? && TypeParametersDeclaration(o, r, s, 0).value.1 == i
    requires i < |s| && s[i] == '(' && ')' !in s[i + 1..]
    ensures MethodSignature(o, r, s).Failure?
  {
    match SignatureParameters(o, r, s, i + 1, [])
    case Failure(_) =>
    case Success((ps, k)) =>
      if k < |s| {
        assert s[k] == s[i + 1..][k - i - 1];
      }
  }

  /** `()` gives no parameters, and the return type is read right after the ')'. */
  lemma EmptyParameterList(o: ClassifierResolver, r: ClassifierResolver, s: string, i: nat)
    requires TypeParametersDeclaration(o, r, s, 0).Success? && TypeParametersDeclaration(o, r, s, 0).value.1 == i
    requires i + 1 < |s| && s[i] == '(' && s[i + 1] == ')'
    ensures MethodSignature(o, r, s).Success? <==> TypeString(o, r, s, i + 2).Success?
    ensures MethodSignature(o, r, s).Success? ==>
              MethodSignature(o, r, s).value.valueParameterTypes == [] &&
              MethodSignature(o, r, s).value.returnType == TypeString(o, r, s, i + 2).value.0
  {
    var tps := TypeParametersDeclaration(o, r, s, 0).value.0;
    calc {
      MethodSignature(o, r, s);
    == { assert At(s, i) == '(' && Advance(s, i) == i + 1;
         assert SignatureParameters(o, r, s, i + 1, []) == Success(([], i + 1)); }
      if At(s, i + 1) != ')' then Failure(ClsFormatException)
      else
        match TypeString(o, r, s, Advance(s, i + 1))
        case Failure(e) => Failure(e)
        case Success((ret, _)) => Success(MethodInfo(ret, tps, []));
    == { assert At(s, i + 1) == ')' && Advance(s, i + 1) == i + 2; }
      match TypeString(o, r, s, i + 2)
      case Failure(e) => Failure(e)
      case Success((ret, _)) => Success(MethodInfo(ret, tps, []));
    }
  }

  /** What `create` parses: the signature when there is one, the descriptor otherwise. */
  function MethodInfoOf(o: ClassifierResolver, r: ClassifierResolver, desc: string, signature: Option<string>)
    : Result<MethodInfo, Failure>
  {
    if signature.Some? then MethodSignature(o, r, signature.value) else MethodDescription(o, r, desc)
  }

  // ---------------------------------------------------------------------------------------------
  // Binding type parameters by name

  /** `typeParameters.associateByTo(map) { it.name }`: each type parameter is put under its name in
      order, so a later one replaces an earlier one of the same name. */
  function BindAll(m: map<string, TypeParameter>, tps: seq<TypeParameter>): map<string, TypeParameter>
    decreases |tps|
  {
    if tps == [] then m else BindAll(m, tps[..|tps| - 1])[tps[|tps| - 1].name := tps[|tps| - 1]]
  }

  /** The position of the last type parameter named `n`, if any. */
  function LastNamed(tps: seq<TypeParameter>, n: string): (k: Option<nat>)
    ensures k.Some? ==> k.value < |tps| && tps[k.value].name == n
                        && forall j :: k.value < j < |tps| ==> tps[j].name != n
    ensures k.None? ==> forall j :: 0 <= j < |tps| ==> tps[j].name != n
    decreases |tps|
  {
    if tps == [] then None
    else if tps[|tps| - 1].name == n then Some(|tps| - 1)
    else LastNamed(tps[..|tps| - 1], n)
  }

  /** After binding, a name is bound to the last type parameter that has it, and a name none of them
      has keeps its earlier binding, or stays unbound. */
  lemma {:induction false} BindAllLookup(m: map<string, TypeParameter>, tps: seq<TypeParameter>, n: string)
    ensures n in BindAll(m, tps) <==> n in m || LastNamed(tps, n).Some?
    ensures LastNamed(tps, n).Some? ==> BindAll(m, tps)[n] == tps[LastNamed(tps, n).value]
    ensures LastNamed(tps, n).None? && n in m ==> BindAll(m, tps)[n] == m[n]
    decreases |tps|
  {
    if tps != [] {
      BindAllLookup(m, tps[..|tps| - 1], n);
    }
  }

  /** In a scope whose map results from binding `tps`, every type-variable reference by the name of one of
      them resolves to the last type parameter of that name. */
  lemma ResolveBoundTypeParameter(resolver: ClassifierResolver, m: map<string, TypeParameter>,
                                  tps: seq<TypeParameter>, k: nat)
    requires resolver.typeParameters == BindAll(m, tps)
    requires k < |tps|
    ensures LastNamed(tps, tps[k].name).Some?
    ensures resolver.Resolve(tps[k].name)
            == (Some(TypeParameterClassifier(tps[LastNamed(tps, tps[k].name).value])), tps[k].name)
  {
    BindAllLookup(m, tps, tps[k].name);
  }

  // ---------------------------------------------------------------------------------------------
  // Value parameters

  /** The (type, is-vararg) entries the parameter loop builds from the first `n` parameter types: when
      `skipFirst` the first type is omitted, and only the last type can be a vararg. */
  function ParameterEntries(types: seq<JavaType>, n: nat, skipFirst: bool, isVarargs: bool): (r: seq<(JavaType, bool)>)
    requires n <= |types|
    ensures var off := if skipFirst && n > 0 then 1 else 0;
            |r| == n - off &&
            forall k :: 0 <= k < |r| ==> r[k] == (types[k + off], isVarargs && k + off == |types| - 1)
    decreases n
  {
    if n == 0 then []
    else
      ParameterEntries(types, n - 1, skipFirst, isVarargs)
      + (if n == 1 && skipFirst then [] else [(types[n - 1], isVarargs && n - 1 == |types| - 1)])
  }

  /** What the parameter objects say about themselves. */
  function Shapes(ps: seq<BinaryJavaValueParameter>): (r: seq<(JavaType, bool)>)
    ensures |r| == |ps|
    ensures forall k :: 0 <= k < |ps| ==> r[k] == (ps[k].paramType, ps[k].isVararg)
  {
    seq(|ps|, k requires 0 <= k < |ps| => (ps[k].paramType, ps[k].isVararg))
  }

  /** At most the last entry is a vararg, and exactly when the member is variadic and has a parameter
      left after the skip. */
  lemma VarargIsLast(types: seq<JavaType>, skipFirst: bool, isVarargs: bool)
    ensures var r := ParameterEntries(types, |types|, skipFirst, isVarargs);
            (forall k :: 0 <= k < |r| - 1 ==> !r[k].1) &&
            (r != [] ==> (r[|r| - 1].1 <==> isVarargs))
  {
  }

  // ---------------------------------------------------------------------------------------------
  // `create`

  /** `parseMethodSignature`, over a character cursor. */
  method ParseMethodSignature(signature: string, component: SignatureParsingComponent, resolver: ClassifierResolver)
    returns (res: Result<MethodInfo, Failure>)
    ensures res == MethodSignature(component.resolver, resolver, signature)
  {
    var cursor := new Cursor(signature);
    var tps := component.ParseTypeParametersDeclaration(cursor, resolver);
    if tps.Failure? {
      return Failure(tps.error);
    }
    var typeParameters := tps.value;
    if cursor.Current() != '(' {
      return Failure(ClsFormatException);
    }
    cursor.Next();
    ghost var start := cursor.pos;
    var paramTypes: seq<JavaType>;
    if cursor.Current() == ')' {
      paramTypes := [];
    } else {
      paramTypes := [];
      ghost var spec := SignatureParameters(component.resolver, resolver, signature, start, []);
      while cursor.Current() != ')' && cursor.Current() != DONE
        invariant cursor.Valid() && cursor.text == signature
        invariant SignatureParameters(component.resolver, resolver, signature, cursor.pos, paramTypes) == spec
        decreases |signature| - cursor.pos
      {
        var t := component.ParseTypeString(cursor, resolver);
        if t.Failure? {
          return Failure(t.error);
        }
        paramTypes := paramTypes + [t.value];
      }
      if cursor.Current() != ')' {
        return Failure(ClsFormatException);
      }
    }
    cursor.Next();
    var returnType := component.ParseTypeString(cursor, resolver);
    if returnType.Failure? {
      return Failure(returnType.error);
    }
    res := Success(MethodInfo(returnType.value, typeParameters, paramTypes));
  }

  /** `parseMethodDescription`, with the descriptor split as ASM splits it. */
  method ParseMethodDescription(desc: string, resolver: ClassifierResolver, component: SignatureParsingComponent)
    returns (res: Result<MethodInfo, Failure>)
    ensures res == MethodDescription(component.resolver, resolver, desc)
  {
    var (args, ret) := SplitMethodDescriptor(desc);
    var returnType := component.MapAsmType(ret, resolver);
    if returnType.Failure? {
      return Failure(returnType.error);
    }
    var parameterTypes := [];
    for k := 0 to |args|
      invariant DescriptorTypes(component.resolver, resolver, args[..k]) == Success(parameterTypes)
    {
      var t := component.MapAsmType(args[k], resolver);
      assert args[..k + 1][..k] == args[..k];
      if t.Failure? {
        MethodDescriptionFails(component.resolver, resolver, args, k + 1);
        return Failure(t.error);
      }
      parameterTypes := parameterTypes + [t.value];
    }
    assert args[..|args|] == args;
    res := Success(MethodInfo(returnType.value, [], parameterTypes));
  }

  /** A failing prefix makes the whole argument list fail the same way. */
  lemma {:induction false} MethodDescriptionFails(o: ClassifierResolver, r: ClassifierResolver, args: seq<string>, n: nat)
    requires n <= |args| && DescriptorTypes(o, r, args[..n]).Failure?
    ensures DescriptorTypes(o, r, args) == DescriptorTypes(o, r, args[..n])
    decreases |args| - n
  {
    if n < |args| {
      assert args[..n + 1][..n] == args[..n];
      MethodDescriptionFails(o, r, args, n + 1);
    } else {
      assert args[..n] == args;
    }
  }

  /** `info.typeParameters.associateByTo(resolver.typeParameters) { it.name.identifier }` */
  method BindTypeParameters(resolver: ClassifierResolver, typeParameters: seq<TypeParameter>)
    modifies resolver
    ensures resolver.typeParameters == BindAll(old(resolver.typeParameters), typeParameters)
  {
    ghost var before := resolver.typeParameters;
    for k := 0 to |typeParameters|
      invariant resolver.typeParameters == BindAll(before, typeParameters[..k])
    {
      assert typeParameters[..k + 1][..k] == typeParameters[..k];
      resolver.Put(typeParameters[k].name, typeParameters[k]);
    }
    assert typeParameters[..|typeParameters|] == typeParameters;
  }

  /** The parameter loop of `create`: one new value parameter per parsed type, the first omitted when
      `skipFirst`, and the last one a vararg when `isVarargs`. */
  method ValueParameterList(parameterTypes: seq<JavaType>, skipFirst: bool, isVarargs: bool)
    returns (parameterList: seq<BinaryJavaValueParameter>)
    ensures Shapes(parameterList) == ParameterEntries(parameterTypes, |parameterTypes|, skipFirst, isVarargs)
    ensures forall i :: 0 <= i < |parameterList| ==> fresh(parameterList[i]) && parameterList[i].annotations == []
    ensures forall a, b :: 0 <= a < b < |parameterList| ==> parameterList[a] != parameterList[b]
  {
    parameterList := [];
    var paramCount := |parameterTypes|;
    for i := 0 to paramCount
      invariant Shapes(parameterList) == ParameterEntries(parameterTypes, i, skipFirst, isVarargs)
      invariant forall i :: 0 <= i < |parameterList| ==> fresh(parameterList[i]) && parameterList[i].annotations == []
      invariant forall a, b :: 0 <= a < b < |parameterList| ==> parameterList[a] != parameterList[b]
    {
      if i == 0 && skipFirst {
        continue;
      }
      var t := parameterTypes[i];
      var isEllipsisParam := isVarargs && i == paramCount - 1;
      var p := new BinaryJavaValueParameter(t, isEllipsisParam);
      parameterList := parameterList + [p];
    }
  }

  /** `BinaryJavaMethodBase.create` for a member of a class that has an outer class or not and is static
      or not. The member's type parameters are bound in `resolver`, the member's own fork of the class
      scope, and the returned visitor collects the member's annotations in that scope. A signature or
      descriptor that does not parse is the exception it raises, and then nothing is bound. */
  method Create(name: string, access: AccessFlags, desc: string, signature: Option<string>,
                containingHasOuterClass: bool, containingIsStatic: bool,
                resolver: ClassifierResolver, component: SignatureParsingComponent)
    returns (res: Result<(BinaryJavaMember, AnnotationsCollectorMethodVisitor), Failure>)
    modifies resolver
    ensures var info := MethodInfoOf(component.resolver, resolver, desc, signature);
            res.Failure? <==> info.Failure?
    ensures res.Failure? ==> res.error == MethodInfoOf(component.resolver, resolver, desc, signature).error
                             && resolver.typeParameters == old(resolver.typeParameters)
    ensures res.Success? ==>
              var info := MethodInfoOf(component.resolver, resolver, desc, signature).value;
              var (member, visitor) := res.value;
              var isInnerClassConstructor := name == "<init>" && containingHasOuterClass && !containingIsStatic;
              fresh(member) && fresh(visitor) && member.Valid()
              && member.access == access
              && member.kind == (if name == "<init>" then ConstructorKind else MethodKind(info.returnType))
              && member.name == (if name == "<init>" then NoNameProvided else Identifier(name))
              && member.typeParameters == info.typeParameters
              && member.annotations == [] && !member.hasAnnotationParameterDefaultValue
              && Shapes(member.valueParameters)
                 == ParameterEntries(info.valueParameterTypes, |info.valueParameterTypes|,
                                     signature.None? && isInnerClassConstructor, IsSet(access, ACC_VARARGS))
              && (forall i :: 0 <= i < |member.valueParameters| ==>
                    fresh(member.valueParameters[i]) && member.valueParameters[i].annotations == [])
              && resolver.typeParameters == BindAll(old(resolver.typeParameters), info.typeParameters)
              && visitor.member == member && visitor.resolver == resolver
              && visitor.parametersToSkipNumber == if isInnerClassConstructor then 1 else 0
  {
    var isConstructor := name == "<init>";
    var isVarargs := IsSet(access, ACC_VARARGS);
    var generic := signature.Some?;
    var info;
    if signature.Some? {
      info := ParseMethodSignature(signature.value, component, resolver);
    } else {
      info := ParseMethodDescription(desc, resolver, component);
    }
    if info.Failure? {
      return Failure(info.error);
    }
    var isInnerClassConstructor := isConstructor && containingHasOuterClass && !containingIsStatic;

    var typeParameters := info.value.typeParameters;
    BindTypeParameters(resolver, typeParameters);
    var parameterList := ValueParameterList(info.value.valueParameterTypes, !generic && isInnerClassConstructor, isVarargs);

    var paramIgnoreCount := if isInnerClassConstructor then 1 else 0;
    var kind := if isConstructor then ConstructorKind else MethodKind(info.value.returnType);
    var member := new BinaryJavaMember(access, kind, name, parameterList, typeParameters);
    var visitor := new AnnotationsCollectorMethodVisitor(member, resolver, paramIgnoreCount);
    res := Success((member, visitor));
  }
}
