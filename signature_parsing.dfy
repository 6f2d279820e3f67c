/** The recursive-descent parser for JVM generic signatures (The Java Virtual Machine Specification,
    Java SE 8 Edition, section 4.7.9.1) and field descriptors (section 4.3.2), over a forward cursor.

    Each production is stated twice: as a function of the text and a start index that returns the
    parsed value and the index after it (the specification), and as a method of
    `SignatureParsingComponent` that advances a shared `Cursor` step by step as the source does, proved
    to agree with the function. */
module SignatureParsing {
  import opened Wrappers
  import opened Sequences
  import opened CharacterIterators
  import opened JavaStructure

  /** A parse result: the value and the index just past what it consumed, or the exception thrown. */
  type Parsed<T> = Result<(T, nat), Failure>

  /** A method's result `res`, with the cursor left at `pos`, is what the specification `spec` says. */
  predicate Agrees<T(==)>(res: Result<T, Failure>, spec: Parsed<T>, pos: nat) {
    match spec
    case Success(p) => res == Success(p.0) && pos == p.1
    case Failure(e) => res == Failure(e)
  }

  const JLO_INTERNAL_NAME := "java/lang/Object"

  // ---------------------------------------------------------------------------------------------
  // Lexical helpers

  /** The first index from `i` on whose character (`DONE` past the end) is one of `stops`. */
  function ScanUntil(s: string, i: nat, stops: set<char>): (j: nat)
    requires i <= |s| && DONE in stops
    ensures i <= j <= |s| && At(s, j) in stops
    ensures forall k :: i <= k < j ==> s[k] !in stops
    decreases |s| - i
  {
    if At(s, i) in stops then i else ScanUntil(s, i + 1, stops)
  }

  /** The number of consecutive '[' from `i` on. */
  function Dimensions(s: string, i: nat): (d: nat)
    requires i <= |s|
    ensures i + d <= |s|
    ensures forall k :: i <= k < i + d ==> s[k] == '['
    ensures At(s, i + d) != '['
    decreases |s| - i
  {
    if At(s, i) == '[' then 1 + Dimensions(s, i + 1) else 0
  }

  /** `t` wrapped in `n` array layers. */
  function WrapArray(t: JavaType, n: nat): JavaType {
    if n == 0 then t else JavaArrayType(WrapArray(t, n - 1))
  }

  /** The number of array layers around a type. */
  function ArrayDepth(t: JavaType): nat {
    if t.JavaArrayType? then 1 + ArrayDepth(t.componentType) else 0
  }

  lemma {:induction false} WrapArrayDepth(t: JavaType, n: nat)
    ensures ArrayDepth(WrapArray(t, n)) == n + ArrayDepth(t)
  {
    if n > 0 {
      WrapArrayDepth(t, n - 1);
    }
  }

  /** The type a one-letter descriptor code stands for: the eight primitives and void. */
  function PrimitiveOf(c: char): (t: Option<JavaType>)
    ensures t.Some? ==> t.value.JavaPrimitiveType?
  {
    match c
    case 'B' => Some(JavaPrimitiveType(Some(Byte)))
    case 'C' => Some(JavaPrimitiveType(Some(Char)))
    case 'D' => Some(JavaPrimitiveType(Some(Double)))
    case 'F' => Some(JavaPrimitiveType(Some(Float)))
    case 'I' => Some(JavaPrimitiveType(Some(Int)))
    case 'J' => Some(JavaPrimitiveType(Some(Long)))
    case 'Z' => Some(JavaPrimitiveType(Some(Boolean)))
    case 'S' => Some(JavaPrimitiveType(Some(Short)))
    case 'V' => Some(JavaPrimitiveType(None))
    case _ => None
  }

  /** The descriptor code of a primitive type or void, as section 4.3.2 of the JVM specification
      assigns them: an independent table to check `PrimitiveOf` against. */
  function DescriptorCode(kind: Option<PrimitiveKind>): char {
    match kind
    case None => 'V'
    case Some(Boolean) => 'Z'
    case Some(Char) => 'C'
    case Some(Byte) => 'B'
    case Some(Short) => 'S'
    case Some(Int) => 'I'
    case Some(Float) => 'F'
    case Some(Long) => 'J'
    case Some(Double) => 'D'
  }

  /** The codes map one to one onto the primitives: a code parses to a primitive exactly when that
      primitive's code is the code. */
  lemma PrimitiveCodes(c: char, kind: Option<PrimitiveKind>)
    ensures PrimitiveOf(c) == Some(JavaPrimitiveType(kind)) <==> DescriptorCode(kind) == c
  {
  }

  datatype Variance = Plus | Minus | Star | NoVariance

  /** `parseVariance`: the variance a character announces, and whether it is consumed. */
  function VarianceOf(c: char): (r: (Variance, bool))
    ensures r.1 <==> c in "+-*.="
    ensures r.0 == Star <==> c == '*'
  {
    match c
    case '+' => (Plus, true)
    case '-' => (Minus, true)
    case '*' => (Star, true)
    case '.' => (NoVariance, true)
    case '=' => (NoVariance, true)
    case _ => (NoVariance, false)
  }

  // ---------------------------------------------------------------------------------------------
  // Type parameter bounds and the elision of a sole java.lang.Object bound

  /** The parser's bound list (not yet allocated: `None`) and its flag that an Object bound was seen
      while the list was not allocated. */
  datatype BoundsState = BoundsState(bounds: Option<seq<JavaType>>, jlo: bool)

  /** One iteration of the bound loop with a parsed bound `b`. */
  function AddBound(o: ClassifierResolver, st: BoundsState, b: JavaType): BoundsState {
    if st.bounds.None? then
      if b == JavaLangObject(o) then BoundsState(None, true)
      else BoundsState(Some((if st.jlo then [JavaLangObject(o)] else []) + [b]), st.jlo)
    else BoundsState(Some(st.bounds.value + [b]), st.jlo)
  }

  function FoldBounds(o: ClassifierResolver, st: BoundsState, bs: seq<JavaType>): BoundsState
    decreases |bs|
  {
    if bs == [] then st else FoldBounds(o, AddBound(o, st, bs[0]), bs[1..])
  }

  /** The number of leading Object bounds. */
  function LeadingObjects(o: ClassifierResolver, bs: seq<JavaType>): (k: nat)
    ensures k <= |bs|
    ensures forall j :: 0 <= j < k ==> bs[j] == JavaLangObject(o)
    ensures k < |bs| ==> bs[k] != JavaLangObject(o)
  {
    if bs != [] && bs[0] == JavaLangObject(o) then 1 + LeadingObjects(o, bs[1..]) else 0
  }

  /** The intended bound list, stated directly: a bound list made only of Object is elided to the
      empty list; otherwise leading Object bounds collapse into one, which stays first, and every other
      bound keeps its place. */
  function ElideObjectBound(o: ClassifierResolver, bs: seq<JavaType>): seq<JavaType> {
    var k := LeadingObjects(o, bs);
    if k == |bs| then [] else (if k > 0 then [JavaLangObject(o)] else []) + bs[k..]
  }

  lemma {:induction false} FoldAllocated(o: ClassifierResolver, xs: seq<JavaType>, jlo: bool, bs: seq<JavaType>)
    ensures FoldBounds(o, BoundsState(Some(xs), jlo), bs) == BoundsState(Some(xs + bs), jlo)
    decreases |bs|
  {
    if bs != [] {
      FoldAllocated(o, xs + [bs[0]], jlo, bs[1..]);
      assert xs + [bs[0]] + bs[1..] == xs + bs;
    } else {
      assert xs + bs == xs;
    }
  }

  lemma {:induction false} FoldUnallocated(o: ClassifierResolver, jlo: bool, bs: seq<JavaType>)
    ensures var k := LeadingObjects(o, bs);
            FoldBounds(o, BoundsState(None, jlo), bs).bounds.GetOr([])
            == if k == |bs| then [] else (if jlo || k > 0 then [JavaLangObject(o)] else []) + bs[k..]
    decreases |bs|
  {
    if bs != [] {
      if bs[0] == JavaLangObject(o) {
        FoldUnallocated(o, true, bs[1..]);
        assert bs[1..][LeadingObjects(o, bs[1..])..] == bs[LeadingObjects(o, bs)..];
      } else {
        FoldAllocated(o, (if jlo then [JavaLangObject(o)] else []) + [bs[0]], jlo, bs[1..]);
        assert [bs[0]] + bs[1..] == bs;
      }
    }
  }

  /** The step-by-step bound loop computes the intended bound list. */
  lemma BoundLoopElidesObject(o: ClassifierResolver, bs: seq<JavaType>)
    ensures FoldBounds(o, BoundsState(None, false), bs).bounds.GetOr([]) == ElideObjectBound(o, bs)
  {
    FoldUnallocated(o, false, bs);
  }

  lemma ElideSoleObject(o: ClassifierResolver)
    ensures ElideObjectBound(o, [JavaLangObject(o)]) == []
  {
  }

  lemma ElideKeepsObjectBeforeOthers(o: ClassifierResolver, rest: seq<JavaType>)
    requires rest != [] && rest[0] != JavaLangObject(o)
    ensures ElideObjectBound(o, [JavaLangObject(o)] + rest) == [JavaLangObject(o)] + rest
  {
    assert LeadingObjects(o, [JavaLangObject(o)] + rest) == 1 by {
      assert ([JavaLangObject(o)] + rest)[1..] == rest;
    }
  }

  lemma ElideWithoutLeadingObject(o: ClassifierResolver, bs: seq<JavaType>)
    requires bs != [] && bs[0] != JavaLangObject(o)
    ensures ElideObjectBound(o, bs) == bs
  {
  }

  /** Every reference in `t` that is resolved lazily closes over the declaration's resolver `r`, and
      every shared Object type over the component's resolver `o`. */
  predicate ScopedBy(t: JavaType, o: ClassifierResolver, r: ClassifierResolver)
    decreases t
  {
    match t
    case JavaPrimitiveType(_) => true
    case JavaArrayType(c) => ScopedBy(c, o, r)
    case JavaClassifierType(c, args) => (c.Deferred? ==> c.scope == r) && forall a :: a in args ==> ScopedBy(a, o, r)
    case JavaLangObject(scope) => scope == o
    case JavaWildcardType(b, _) => b.Some? ==> ScopedBy(b.value, o, r)
  }

  predicate AllScoped(ts: seq<JavaType>, o: ClassifierResolver, r: ClassifierResolver) {
    forall a :: a in ts ==> ScopedBy(a, o, r)
  }

  predicate GroupsScoped(groups: seq<seq<JavaType>>, o: ClassifierResolver, r: ClassifierResolver) {
    forall g :: g in groups ==> AllScoped(g, o, r)
  }

  lemma {:induction false} WrapArrayScoped(t: JavaType, n: nat, o: ClassifierResolver, r: ClassifierResolver)
    ensures ScopedBy(WrapArray(t, n), o, r) <==> ScopedBy(t, o, r)
  {
    if n > 0 {
      WrapArrayScoped(t, n - 1, o, r);
    }
  }

  lemma ReversedFlattenScoped(groups: seq<seq<JavaType>>, o: ClassifierResolver, r: ClassifierResolver)
    ensures GroupsScoped(groups, o, r) ==> AllScoped(ReversedFlatten(groups), o, r)
  {
    forall a | a in ReversedFlatten(groups) && GroupsScoped(groups, o, r)
      ensures ScopedBy(a, o, r)
    {
      ReversedFlattenMember(groups, a);
    }
  }

  // ---------------------------------------------------------------------------------------------
  // The grammar, as functions. `o` is the parsing component's own resolver (the scope of its shared
  // Object type) and `r` the resolver of the declaration being parsed.

  /** `parseTypeVariableRefSignature`, at a 'T'. */
  function TypeVariableRef(r: ClassifierResolver, s: string, i: nat): (res: Parsed<JavaType>)
    requires i <= |s| && At(s, i) == 'T'
    ensures res.Success? ==> i < res.value.1 <= |s| && res.value.0.JavaClassifierType?
    ensures res.Success? ==> res.value.0.classifier.Deferred? && res.value.0.classifier.scope == r
                             && res.value.0.typeArguments == []
  {
    var b := Advance(s, i);
    var j := ScanUntil(s, b, {';', '>', DONE});
    if At(s, j) == DONE then Failure(ClsFormatException)
    else Success((JavaClassifierType(Deferred(r, ByName(s[b..j])), []), if At(s, j) == ';' then Advance(s, j) else j))
  }

  /** `parseParameterizedClassRefSignature`, at an 'L'. */
  function ClassRef(o: ClassifierResolver, r: ClassifierResolver, s: string, i: nat): (res: Parsed<JavaType>)
    requires i <= |s| && At(s, i) == 'L'
    ensures res.Success? ==> i < res.value.1 <= |s| && s[res.value.1 - 1] == ';' && res.value.0.IsClassifierType()
    ensures res.Success? ==> ScopedBy(res.value.0, o, r)
    decreases |s| - i, 1
  {
    ClassRefLoop(o, r, s, Advance(s, i), "", [])
  }

  /** The loop of `parseParameterizedClassRefSignature`, with the name and the argument groups read so
      far. */
  function ClassRefLoop(o: ClassifierResolver, r: ClassifierResolver, s: string, i: nat, name: string,
                        groups: seq<seq<JavaType>>): (res: Parsed<JavaType>)
    requires i <= |s|
    ensures res.Success? ==> i < res.value.1 <= |s| && s[res.value.1 - 1] == ';' && res.value.0.IsClassifierType()
    ensures res.Success? && GroupsScoped(groups, o, r) ==> ScopedBy(res.value.0, o, r)
    decreases |s| - i, 0
  {
    var c := At(s, i);
    if c == ';' then
      ReversedFlattenScoped(groups, o, r);
      var t := if name == JLO_INTERNAL_NAME then JavaLangObject(o)
               else JavaClassifierType(Deferred(r, ByInternalName(name)), ReversedFlatten(groups));
      Success((t, Advance(s, i)))
    else if c == DONE then Failure(ClsFormatException)
    else if c == '<' then
      match ArgumentGroup(o, r, s, Advance(s, i), [])
      case Success((g, j)) => ClassRefLoop(o, r, s, Advance(s, j), name, groups + [g])
      case Failure(e) => Failure(e)
    else ClassRefLoop(o, r, s, Advance(s, i), if c != ' ' then name + [c] else name, groups)
  }

  /** The `do { ... } while (current() != '>')` loop reading one argument group; the index returned is
      that of the closing '>', which the enclosing loop consumes. */
  function ArgumentGroup(o: ClassifierResolver, r: ClassifierResolver, s: string, i: nat,
                         acc: seq<JavaType>): (res: Parsed<seq<JavaType>>)
    requires i <= |s|
    ensures res.Success? ==> i < res.value.1 < |s| && s[res.value.1] == '>'
    ensures res.Success? && AllScoped(acc, o, r) ==> AllScoped(res.value.0, o, r)
    decreases |s| - i, 5
  {
    match Element(o, r, s, i)
    case Success((t, j)) =>
      if At(s, j) == '>' then Success((acc + [t], j)) else ArgumentGroup(o, r, s, j, acc + [t])
    case Failure(e) => Failure(e)
  }

  /** `parseClassOrTypeVariableElement`: a type argument with its variance. */
  function Element(o: ClassifierResolver, r: ClassifierResolver, s: string, i: nat): (res: Parsed<JavaType>)
    requires i <= |s|
    ensures res.Success? ==> i < res.value.1 <= |s|
    ensures res.Success? ==> ScopedBy(res.value.0, o, r)
    decreases |s| - i, 4
  {
    var (v, advance) := VarianceOf(At(s, i));
    if v == Star then Success((JavaWildcardType(None, true), Advance(s, i)))
    else
      match TypeString(o, r, s, if advance then Advance(s, i) else i)
      case Success((t, j)) =>
        Success((if v == NoVariance then t else JavaWildcardType(Some(t), v == Plus), j))
      case Failure(e) => Failure(e)
  }

  /** `parseTypeString`: array dimensions, then a class, type variable or primitive. */
  function TypeString(o: ClassifierResolver, r: ClassifierResolver, s: string, i: nat): (res: Parsed<JavaType>)
    requires i <= |s|
    ensures res.Success? ==> i < res.value.1 <= |s|
    ensures res.Success? ==> ScopedBy(res.value.0, o, r)
    decreases |s| - i, 3
  {
    var d := Dimensions(s, i);
    match TypeWithoutVarianceAndArray(o, r, s, i + d)
    case Success((t, j)) =>
      if t.None? then Failure(ClsFormatException)
      else WrapArrayScoped(t.value, d, o, r); Success((WrapArray(t.value, d), j))
    case Failure(e) => Failure(e)
  }

  /** `parseTypeWithoutVarianceAndArray`: `None` when no production starts here. */
  function TypeWithoutVarianceAndArray(o: ClassifierResolver, r: ClassifierResolver, s: string, i: nat)
    : (res: Parsed<Option<JavaType>>)
    requires i <= |s|
    ensures res.Success? ==> i <= res.value.1 <= |s|
    ensures res.Success? && res.value.0.Some? ==> i < res.value.1 && !res.value.0.value.JavaArrayType?
    ensures res.Success? && res.value.0.None? ==> res.value.1 == i
    ensures res.Success? && res.value.0.Some? ==> ScopedBy(res.value.0.value, o, r)
    decreases |s| - i, 2
  {
    var c := At(s, i);
    if c == 'L' then
      match ClassRef(o, r, s, i)
      case Success((t, j)) => Success((Some(t), j))
      case Failure(e) => Failure(e)
    else if c == 'T' then
      match TypeVariableRef(r, s, i)
      case Success((t, j)) => Success((Some(t), j))
      case Failure(e) => Failure(e)
    else if PrimitiveOf(c).Some? then Success((PrimitiveOf(c), Advance(s, i)))
    else Success((None, i))
  }

  /** `parseTopLevelClassRefSignature`: `None`, consuming nothing, unless a class or type-variable
      reference starts here. */
  function TopLevelClassRef(o: ClassifierResolver, r: ClassifierResolver, s: string, i: nat)
    : (res: Parsed<Option<JavaType>>)
    requires i <= |s|
    ensures res.Success? ==> i <= res.value.1 <= |s|
    ensures res.Success? && res.value.0.Some? ==> i < res.value.1 && res.value.0.value.IsClassifierType()
    ensures res.Success? && res.value.0.None? ==> res.value.1 == i && At(s, i) != 'L' && At(s, i) != 'T'
    ensures res.Success? && res.value.0.Some? ==> ScopedBy(res.value.0.value, o, r)
  {
    var c := At(s, i);
    if c == 'L' then
      match ClassRef(o, r, s, i)
      case Success((t, j)) => Success((Some(t), j))
      case Failure(e) => Failure(e)
    else if c == 'T' then
      match TypeVariableRef(r, s, i)
      case Success((t, j)) => Success((Some(t), j))
      case Failure(e) => Failure(e)
    else Success((None, i))
  }

  /** The bound loop of `parseTypeParameter`: `:Bound` repeated. */
  function Bounds(o: ClassifierResolver, r: ClassifierResolver, s: string, i: nat, st: BoundsState)
    : (res: Parsed<seq<JavaType>>)
    requires i <= |s|
    ensures res.Success? ==> i <= res.value.1 <= |s| && At(s, res.value.1) != ':'
    ensures res.Success? && At(s, i) == ':' ==> i < res.value.1
    ensures res.Success? && AllScoped(st.bounds.GetOr([]), o, r) ==> AllScoped(res.value.0, o, r)
    decreases |s| - i
  {
    if At(s, i) != ':' then Success((st.bounds.GetOr([]), i))
    else
      match TopLevelClassRef(o, r, s, Advance(s, i))
      case Success((b, j)) => Bounds(o, r, s, j, if b.Some? then AddBound(o, st, b.value) else st)
      case Failure(e) => Failure(e)
  }

  /** `parseTypeParameter`: a name up to ':', then its bounds. */
  function TypeParameterAt(o: ClassifierResolver, r: ClassifierResolver, s: string, i: nat)
    : (res: Parsed<TypeParameter>)
    requires i <= |s|
    ensures res.Success? ==> i < res.value.1 <= |s|
    ensures res.Success? ==> AllScoped(res.value.0.upperBounds, o, r)
  {
    var j := ScanUntil(s, i, {':', DONE});
    if At(s, j) == DONE then Failure(ClsFormatException)
    else
      match Bounds(o, r, s, j, BoundsState(None, false))
      case Success((bounds, k)) => Success((TypeParameter(s[i..j], bounds), k))
      case Failure(e) => Failure(e)
  }

  /** `parseTypeParametersDeclaration`: nothing, consuming nothing, unless a '<' starts here; otherwise
      type parameters through the matching '>'. */
  function TypeParametersDeclaration(o: ClassifierResolver, r: ClassifierResolver, s: string, i: nat)
    : (res: Parsed<seq<TypeParameter>>)
    requires i <= |s|
    ensures At(s, i) != '<' ==> res == Success(([], i))
    ensures At(s, i) == '<' && res.Success? ==> i < res.value.1 <= |s| && s[res.value.1 - 1] == '>'
  {
    if At(s, i) != '<' then Success(([], i)) else TypeParametersLoop(o, r, s, Advance(s, i), [])
  }

  function TypeParametersLoop(o: ClassifierResolver, r: ClassifierResolver, s: string, i: nat, acc: seq<TypeParameter>)
    : (res: Parsed<seq<TypeParameter>>)
    requires i <= |s|
    ensures res.Success? ==> i < res.value.1 <= |s| && s[res.value.1 - 1] == '>'
    decreases |s| - i
  {
    if At(s, i) == '>' then Success((acc, Advance(s, i)))
    else
      match TypeParameterAt(o, r, s, i)
      case Success((tp, j)) => TypeParametersLoop(o, r, s, j, acc + [tp])
      case Failure(e) => Failure(e)
  }

  // ---------------------------------------------------------------------------------------------
  // Properties of the grammar

  /** The bounds as written, in order, before any elision: every `:Bound` that is a class or
      type-variable reference (an empty class bound, as in `T::Ljava/lang/Runnable;`, adds nothing). */
  function RawBounds(o: ClassifierResolver, r: ClassifierResolver, s: string, i: nat): (res: Parsed<seq<JavaType>>)
    requires i <= |s|
    ensures res.Success? ==> i <= res.value.1 <= |s|
    decreases |s| - i
  {
    if At(s, i) != ':' then Success(([], i))
    else
      match TopLevelClassRef(o, r, s, Advance(s, i))
      case Success((b, j)) =>
        (match RawBounds(o, r, s, j)
         case Success((bs, k)) => Success(((if b.Some? then [b.value] else []) + bs, k))
         case Failure(e) => Failure(e))
      case Failure(e) => Failure(e)
  }

  lemma {:induction false} BoundsFoldRaw(o: ClassifierResolver, r: ClassifierResolver, s: string, i: nat, st: BoundsState)
    requires i <= |s|
    ensures Bounds(o, r, s, i, st) == match RawBounds(o, r, s, i)
                                      case Success((bs, j)) => Success((FoldBounds(o, st, bs).bounds.GetOr([]), j))
                                      case Failure(e) => Failure(e)
    decreases |s| - i
  {
    if At(s, i) == ':' {
      match TopLevelClassRef(o, r, s, Advance(s, i))
      case Success((b, j)) =>
        var st' := if b.Some? then AddBound(o, st, b.value) else st;
        BoundsFoldRaw(o, r, s, j, st');
        match RawBounds(o, r, s, j) {
          case Success((bs, k)) =>
            if b.Some? {
              assert ([b.value] + bs)[1..] == bs;
            } else {
              assert [] + bs == bs;
            }
          case Failure(_) =>
        }
      case Failure(_) =>
    }
  }

  /** A type parameter's bounds are its written bounds with a sole (or leading) `java.lang.Object`
      elided as `ElideObjectBound` states. */
  lemma TypeParameterBounds(o: ClassifierResolver, r: ClassifierResolver, s: string, i: nat)
    requires i <= |s|
    ensures Bounds(o, r, s, i, BoundsState(None, false))
            == match RawBounds(o, r, s, i)
               case Success((bs, j)) => Success((ElideObjectBound(o, bs), j))
               case Failure(e) => Failure(e)
  {
    BoundsFoldRaw(o, r, s, i, BoundsState(None, false));
    match RawBounds(o, r, s, i)
    case Success((bs, _)) => BoundLoopElidesObject(o, bs);
    case Failure(_) =>
  }

  /** A type parameter whose name runs to the end of the text is malformed. */
  lemma TypeParameterNeedsColon(o: ClassifierResolver, r: ClassifierResolver, s: string, i: nat)
    requires i <= |s|
    requires forall k :: i <= k < |s| ==> s[k] != ':'
    ensures TypeParameterAt(o, r, s, i) == Failure(ClsFormatException)
  {
  }

  /** `x` with its spaces removed: the class-name loop skips spaces. */
  function WithoutSpaces(x: string): (y: string)
    ensures ' ' !in y
    ensures |y| <= |x|
    decreases |x|
  {
    if x == [] then [] else (if x[0] == ' ' then [] else [x[0]]) + WithoutSpaces(x[1..])
  }

  /** Reading a class name: over a run of characters free of ';', '<' and `DONE`, the loop only
      appends them, spaces dropped, to the name. */
  lemma ClassNameStep(o: ClassifierResolver, r: ClassifierResolver, s: string, i: nat, name: string,
                      groups: seq<seq<JavaType>>)
    requires i < |s| && s[i] != ';' && s[i] != '<' && s[i] != DONE
    ensures ClassRefLoop(o, r, s, i, name, groups)
            == ClassRefLoop(o, r, s, i + 1, name + (if s[i] == ' ' then [] else [s[i]]), groups)
  {
    assert At(s, i) == s[i] && Advance(s, i) == i + 1;
    if s[i] == ' ' {
      assert name + [] == name;
    }
  }

  lemma NameAppend(name: string, s: string, i: nat, k: nat)
    requires i < k <= |s|
    ensures name + (if s[i] == ' ' then [] else [s[i]]) + WithoutSpaces(s[i + 1..k]) == name + WithoutSpaces(s[i..k])
  {
    assert s[i..k][1..] == s[i + 1..k];
  }

  /** Characters that cannot end or interrupt a class name. */
  predicate NameChars(x: string) {
    ';' !in x && '<' !in x && DONE !in x
  }

  /** Reading a class name: over a run of characters free of ';', '<' and `DONE`, the loop only
      appends them, spaces dropped, to the name. */
  lemma {:induction false} ClassNameRun(o: ClassifierResolver, r: ClassifierResolver, s: string, i: nat, k: nat,
                                        name: string, groups: seq<seq<JavaType>>)
    requires i <= k <= |s|
    requires NameChars(s[i..k])
    ensures ClassRefLoop(o, r, s, i, name, groups) == ClassRefLoop(o, r, s, k, name + WithoutSpaces(s[i..k]), groups)
    decreases k - i
  {
    if i < k {
      var name' := name + (if s[i] == ' ' then [] else [s[i]]);
      assert s[i] == s[i..k][0];
      ClassNameStep(o, r, s, i, name, groups);
      assert s[i + 1..k] == s[i..k][1..];
      ClassNameRun(o, r, s, i + 1, k, name', groups);
      NameAppend(name, s, i, k);
    } else {
      assert s[i..k] == [];
      assert name + [] == name;
    }
  }

  /** A class reference without type arguments names the class written between 'L' and ';' without
      its spaces, and `java/lang/Object` gives the component's shared Object type. */
  lemma PlainClassRef(o: ClassifierResolver, r: ClassifierResolver, s: string, i: nat, k: nat)
    requires i < k < |s| && s[i] == 'L' && s[k] == ';'
    requires NameChars(s[i + 1..k])
    ensures var n := WithoutSpaces(s[i + 1..k]);
            ClassRef(o, r, s, i) == Success((if n == JLO_INTERNAL_NAME then JavaLangObject(o)
                                             else JavaClassifierType(Deferred(r, ByInternalName(n)), []), k + 1))
  {
    ClassNameRun(o, r, s, i + 1, k, "", []);
    assert "" + WithoutSpaces(s[i + 1..k]) == WithoutSpaces(s[i + 1..k]);
  }

  /** A parsed type string has exactly as many array layers as it has leading '['. */
  lemma TypeStringArrayDepth(o: ClassifierResolver, r: ClassifierResolver, s: string, i: nat)
    requires i <= |s|
    requires TypeString(o, r, s, i).Success?
    ensures ArrayDepth(TypeString(o, r, s, i).value.0) == Dimensions(s, i)
  {
    var d := Dimensions(s, i);
    var t := TypeWithoutVarianceAndArray(o, r, s, i + d).value.0.value;
    WrapArrayDepth(t, d);
  }

  /** A one-letter primitive descriptor parses to its primitive, consuming the letter. */
  lemma PrimitiveDescriptor(o: ClassifierResolver, r: ClassifierResolver, kind: Option<PrimitiveKind>)
    ensures TypeString(o, r, [DescriptorCode(kind)], 0) == Success((JavaPrimitiveType(kind), 1))
  {
    PrimitiveCodes(DescriptorCode(kind), kind);
  }

  lemma {:induction false} WithoutSpacesOfSpaceless(x: string)
    requires ' ' !in x
    ensures WithoutSpaces(x) == x
    decreases |x|
  {
    if x != [] {
      WithoutSpacesOfSpaceless(x[1..]);
      assert x == [x[0]] + x[1..];
    }
  }

  /** The type a class reference without arguments to internal name `n` parses to. */
  function ClassType(o: ClassifierResolver, r: ClassifierResolver, n: string): JavaType {
    if n == JLO_INTERNAL_NAME then JavaLangObject(o) else JavaClassifierType(Deferred(r, ByInternalName(n)), [])
  }

  lemma SingletonGroups(t: JavaType)
    ensures ReversedFlatten([[t]]) == [t]
  {
    ReversedFlattenSnoc([], [t]);
    assert [] + [[t]] == [[t]];
  }

  /** A type argument without a variance mark is the type string itself. */
  lemma ElementOfReference(o: ClassifierResolver, r: ClassifierResolver, s: string, i: nat)
    requires i <= |s| && (At(s, i) == 'L' || At(s, i) == 'T')
    ensures Element(o, r, s, i) == if At(s, i) == 'L' then ClassRef(o, r, s, i) else TypeVariableRef(r, s, i)
  {
    assert Dimensions(s, i) == 0;
    assert VarianceOf(At(s, i)) == (NoVariance, false);
    var ref := if At(s, i) == 'L' then ClassRef(o, r, s, i) else TypeVariableRef(r, s, i);
    match ref {
      case Success((t, j)) =>
        assert TypeWithoutVarianceAndArray(o, r, s, i) == Success((Some(t), j));
        assert TypeString(o, r, s, i) == Success((t, j));
      case Failure(e) =>
        assert TypeWithoutVarianceAndArray(o, r, s, i) == Failure(e);
    }
  }

  /** An argument group holding one argument. */
  lemma SingleArgumentGroup(o: ClassifierResolver, r: ClassifierResolver, s: string, i: nat, t: JavaType, j: nat)
    requires i <= |s| && Element(o, r, s, i) == Success((t, j)) && At(s, j) == '>'
    ensures ArgumentGroup(o, r, s, i, []) == Success(([t], j))
  {
    assert [] + [t] == [t];
  }

  lemma {:induction false} ScanRun(s: string, i: nat, k: nat, stops: set<char>)
    requires i <= k <= |s| && DONE in stops
    requires forall c :: c in s[i..k] ==> c !in stops
    requires At(s, k) in stops
    ensures ScanUntil(s, i, stops) == k
    decreases k - i
  {
    if i < k {
      assert s[i] in s[i..k];
      assert s[i + 1..k] == s[i..k][1..];
      ScanRun(s, i + 1, k, stops);
    }
  }

  /** A type-variable reference `T`name`;` names the variable written between them, looked up by name. */
  lemma TypeVariableRefOf(r: ClassifierResolver, s: string, i: nat, k: nat)
    requires i < k < |s| && s[i] == 'T' && s[k] == ';'
    requires ';' !in s[i + 1..k] && '>' !in s[i + 1..k] && DONE !in s[i + 1..k]
    ensures TypeVariableRef(r, s, i) == Success((JavaClassifierType(Deferred(r, ByName(s[i + 1..k])), []), k + 1))
  {
    ScanRun(s, i + 1, k, {';', '>', DONE});
  }

  /** A class reference without arguments or spaces. */
  lemma SpacelessClassRef(o: ClassifierResolver, r: ClassifierResolver, s: string, i: nat, k: nat)
    requires i < k < |s| && s[i] == 'L' && s[k] == ';'
    requires NameChars(s[i + 1..k]) && ' ' !in s[i + 1..k]
    ensures ClassRef(o, r, s, i) == Success((ClassType(o, r, s[i + 1..k]), k + 1))
  {
    PlainClassRef(o, r, s, i, k);
    WithoutSpacesOfSpaceless(s[i + 1..k]);
  }

  /** The name segment right after the 'L'. */
  lemma ClassRefStart(o: ClassifierResolver, r: ClassifierResolver, s: string, p: nat)
    requires 0 < p < |s| && s[0] == 'L' && NameChars(s[1..p]) && ' ' !in s[1..p]
    ensures ClassRef(o, r, s, 0) == ClassRefLoop(o, r, s, p, s[1..p], [])
  {
    ClassNameRun(o, r, s, 1, p, "", []);
    WithoutSpacesOfSpaceless(s[1..p]);
    assert "" + s[1..p] == s[1..p];
  }

  /** A further name segment. */
  lemma ClassRefSegment(o: ClassifierResolver, r: ClassifierResolver, s: string, i: nat, k: nat, name: string,
                        groups: seq<seq<JavaType>>)
    requires i <= k <= |s| && NameChars(s[i..k]) && ' ' !in s[i..k]
    ensures ClassRefLoop(o, r, s, i, name, groups) == ClassRefLoop(o, r, s, k, name + s[i..k], groups)
  {
    ClassNameRun(o, r, s, i, k, name, groups);
    WithoutSpacesOfSpaceless(s[i..k]);
  }

  /** An argument group `<T`var`;>` holding one type-variable reference. */
  lemma TypeVariableGroup(o: ClassifierResolver, r: ClassifierResolver, s: string, i: nat, k: nat, name: string,
                          groups: seq<seq<JavaType>>)
    requires i + 1 < k && k + 1 < |s| && s[i] == '<' && s[i + 1] == 'T' && s[k] == ';' && s[k + 1] == '>'
    requires ';' !in s[i + 2..k] && '>' !in s[i + 2..k] && DONE !in s[i + 2..k]
    ensures ClassRefLoop(o, r, s, i, name, groups)
            == ClassRefLoop(o, r, s, k + 2, name, groups + [[JavaClassifierType(Deferred(r, ByName(s[i + 2..k])), [])]])
  {
    var a := JavaClassifierType(Deferred(r, ByName(s[i + 2..k])), []);
    TypeVariableRefOf(r, s, i + 1, k);
    ElementOfReference(o, r, s, i + 1);
    SingleArgumentGroup(o, r, s, i + 1, a, k + 1);
  }

  /** An argument group `<L`name`;>` holding one class reference. */
  lemma ClassGroup(o: ClassifierResolver, r: ClassifierResolver, s: string, i: nat, k: nat, name: string,
                   groups: seq<seq<JavaType>>)
    requires i + 1 < k && k + 1 < |s| && s[i] == '<' && s[i + 1] == 'L' && s[k] == ';' && s[k + 1] == '>'
    requires NameChars(s[i + 2..k]) && ' ' !in s[i + 2..k]
    ensures ClassRefLoop(o, r, s, i, name, groups)
            == ClassRefLoop(o, r, s, k + 2, name, groups + [[ClassType(o, r, s[i + 2..k])]])
  {
    var a := ClassType(o, r, s[i + 2..k]);
    SpacelessClassRef(o, r, s, i + 1, k);
    ElementOfReference(o, r, s, i + 1);
    SingleArgumentGroup(o, r, s, i + 1, a, k + 1);
  }

  /** The closing ';' of a class reference. */
  lemma ClassRefEnd(o: ClassifierResolver, r: ClassifierResolver, s: string, i: nat, name: string,
                    groups: seq<seq<JavaType>>)
    requires i < |s| && s[i] == ';' && name != JLO_INTERNAL_NAME
    ensures ClassRefLoop(o, r, s, i, name, groups)
            == Success((JavaClassifierType(Deferred(r, ByInternalName(name)), ReversedFlatten(groups)), i + 1))
  {
  }

  /** A class reference with one argument group holding one class reference, as in `List<String>`. */
  lemma ParameterizedClassRef(o: ClassifierResolver, r: ClassifierResolver, s: string, p: nat, q: nat)
    requires 0 < p && p + 1 < q && q + 2 < |s|
    requires s[0] == 'L' && s[p] == '<' && s[p + 1] == 'L' && s[q] == ';' && s[q + 1] == '>' && s[q + 2] == ';'
    requires NameChars(s[1..p]) && ' ' !in s[1..p] && s[1..p] != JLO_INTERNAL_NAME
    requires NameChars(s[p + 2..q]) && ' ' !in s[p + 2..q]
    ensures ClassRef(o, r, s, 0)
            == Success((JavaClassifierType(Deferred(r, ByInternalName(s[1..p])), [ClassType(o, r, s[p + 2..q])]), q + 3))
  {
    var arg := ClassType(o, r, s[p + 2..q]);
    ClassRefStart(o, r, s, p);
    ClassGroup(o, r, s, p, q, s[1..p], []);
    assert [] + [[arg]] == [[arg]];
    ClassRefEnd(o, r, s, q + 2, s[1..p], [[arg]]);
    SingletonGroups(arg);
  }

  /** An inner class of a parameterized outer class, as in `Outer<A>.Inner<B>`: the name joins the
      segments as written (the '.' included), and the inner class's arguments come before the outer
      class's. */
  lemma InnerClassArguments(o: ClassifierResolver, r: ClassifierResolver, s: string, p: nat, q: nat, u: nat, v: nat)
    requires 0 < p && p + 1 < q && q + 1 < u && u + 1 < v && v + 2 < |s|
    requires s[0] == 'L' && s[p] == '<' && s[p + 1] == 'T' && s[q] == ';' && s[q + 1] == '>'
    requires s[u] == '<' && s[u + 1] == 'T' && s[v] == ';' && s[v + 1] == '>' && s[v + 2] == ';'
    requires NameChars(s[1..p]) && ' ' !in s[1..p] && NameChars(s[q + 2..u]) && ' ' !in s[q + 2..u]
    requires s[1..p] + s[q + 2..u] != JLO_INTERNAL_NAME
    requires ';' !in s[p + 2..q] && '>' !in s[p + 2..q] && DONE !in s[p + 2..q]
    requires ';' !in s[u + 2..v] && '>' !in s[u + 2..v] && DONE !in s[u + 2..v]
    ensures ClassRef(o, r, s, 0)
            == Success((JavaClassifierType(Deferred(r, ByInternalName(s[1..p] + s[q + 2..u])),
                                           [JavaClassifierType(Deferred(r, ByName(s[u + 2..v])), []),
                                            JavaClassifierType(Deferred(r, ByName(s[p + 2..q])), [])]), v + 3))
  {
    var a := JavaClassifierType(Deferred(r, ByName(s[p + 2..q])), []);
    ClassRefStart(o, r, s, p);
    TypeVariableGroup(o, r, s, p, q, s[1..p], []);
    assert [] + [[a]] == [[a]];
    InnerClassTail(o, r, s, q + 2, u, v, s[1..p], a);
  }

  lemma InnerClassTail(o: ClassifierResolver, r: ClassifierResolver, s: string, i: nat, u: nat, v: nat,
                       outer: string, a: JavaType)
    requires i <= u && u + 1 < v && v + 2 < |s|
    requires s[u] == '<' && s[u + 1] == 'T' && s[v] == ';' && s[v + 1] == '>' && s[v + 2] == ';'
    requires NameChars(s[i..u]) && ' ' !in s[i..u] && outer + s[i..u] != JLO_INTERNAL_NAME
    requires ';' !in s[u + 2..v] && '>' !in s[u + 2..v] && DONE !in s[u + 2..v]
    ensures ClassRefLoop(o, r, s, i, outer, [[a]])
            == Success((JavaClassifierType(Deferred(r, ByInternalName(outer + s[i..u])),
                                           [JavaClassifierType(Deferred(r, ByName(s[u + 2..v])), []), a]), v + 3))
  {
    ClassRefSegment(o, r, s, i, u, outer, [[a]]);
    InnerClassLastGroup(o, r, s, u, v, outer + s[i..u], a);
  }

  lemma InnerClassLastGroup(o: ClassifierResolver, r: ClassifierResolver, s: string, u: nat, v: nat,
                            name: string, a: JavaType)
    requires u + 1 < v && v + 2 < |s|
    requires s[u] == '<' && s[u + 1] == 'T' && s[v] == ';' && s[v + 1] == '>' && s[v + 2] == ';'
    requires name != JLO_INTERNAL_NAME
    requires ';' !in s[u + 2..v] && '>' !in s[u + 2..v] && DONE !in s[u + 2..v]
    ensures ClassRefLoop(o, r, s, u, name, [[a]])
            == Success((JavaClassifierType(Deferred(r, ByInternalName(name)),
                                           [JavaClassifierType(Deferred(r, ByName(s[u + 2..v])), []), a]), v + 3))
  {
    var b := JavaClassifierType(Deferred(r, ByName(s[u + 2..v])), []);
    TypeVariableGroup(o, r, s, u, v, name, [[a]]);
    ClassRefEnd(o, r, s, v + 2, name, [[a]] + [[b]]);
    ReversedFlattenSnoc([[a]], [b]);
    SingletonGroups(a);
    assert [b] + [a] == [b, a];
  }

  /** A declaration of exactly one type parameter, whatever its bounds. */
  lemma SingleTypeParameter(o: ClassifierResolver, r: ClassifierResolver, s: string, p: nat, bounds: seq<JavaType>, k: nat)
    requires 0 < p < k < |s| && s[0] == '<' && s[p] == ':' && s[k] == '>'
    requires ':' !in s[1..p] && '>' !in s[1..p] && DONE !in s[1..p]
    requires Bounds(o, r, s, p, BoundsState(None, false)) == Success((bounds, k))
    ensures TypeParametersDeclaration(o, r, s, 0) == Success(([TypeParameter(s[1..p], bounds)], k + 1))
  {
    var tp := TypeParameter(s[1..p], bounds);
    assert TypeParameterAt(o, r, s, 1) == Success((tp, k)) by {
      ScanRun(s, 1, p, {':', DONE});
    }
    assert At(s, 1) != '>' by {
      if p > 1 {
        assert s[1] in s[1..p];
      }
    }
    assert TypeParametersLoop(o, r, s, 1, []) == TypeParametersLoop(o, r, s, k, [] + [tp]);
    assert [] + [tp] == [tp];
    assert TypeParametersLoop(o, r, s, k, [tp]) == Success(([tp], k + 1));
  }

  lemma ObjectName()
    ensures NameChars(JLO_INTERNAL_NAME) && ' ' !in JLO_INTERNAL_NAME
  {
  }

  lemma ObjectBoundOnly(o: ClassifierResolver, r: ClassifierResolver, s: string, p: nat, q: nat)
    requires p + 1 < q && q + 1 < |s| && s[p] == ':' && s[p + 1] == 'L' && s[q] == ';' && s[q + 1] == '>'
    requires s[p + 2..q] == JLO_INTERNAL_NAME
    ensures Bounds(o, r, s, p, BoundsState(None, false)) == Success(([], q + 1))
  {
    ObjectName();
    SpacelessClassRef(o, r, s, p + 1, q);
    assert TopLevelClassRef(o, r, s, p + 1) == Success((Some(JavaLangObject(o)), q + 1));
    assert AddBound(o, BoundsState(None, false), JavaLangObject(o)) == BoundsState(None, true);
    assert Bounds(o, r, s, q + 1, BoundsState(None, true)) == Success(([], q + 1));
  }

  /** A declaration of one type parameter whose only bound is `java.lang.Object`: the bound is dropped. */
  lemma SoleObjectBound(o: ClassifierResolver, r: ClassifierResolver, s: string, p: nat, q: nat)
    requires 0 < p && p + 1 < q && q + 1 < |s|
    requires s[0] == '<' && s[p] == ':' && s[p + 1] == 'L' && s[q] == ';' && s[q + 1] == '>'
    requires ':' !in s[1..p] && '>' !in s[1..p] && DONE !in s[1..p] && s[p + 2..q] == JLO_INTERNAL_NAME
    ensures TypeParametersDeclaration(o, r, s, 0) == Success(([TypeParameter(s[1..p], [])], q + 2))
  {
    ObjectBoundOnly(o, r, s, p, q);
    SingleTypeParameter(o, r, s, p, [], q + 1);
  }

  /** A declaration of one type parameter with an empty class bound and one interface bound, as in
      `<T::Ljava/lang/Runnable;>`: the empty class bound adds nothing. */
  lemma InterfaceBound(o: ClassifierResolver, r: ClassifierResolver, s: string, p: nat, q: nat)
    requires 0 < p && p + 2 < q && q + 1 < |s|
    requires s[0] == '<' && s[p] == ':' && s[p + 1] == ':' && s[p + 2] == 'L' && s[q] == ';' && s[q + 1] == '>'
    requires ':' !in s[1..p] && '>' !in s[1..p] && DONE !in s[1..p]
    requires NameChars(s[p + 3..q]) && ' ' !in s[p + 3..q] && s[p + 3..q] != JLO_INTERNAL_NAME
    ensures TypeParametersDeclaration(o, r, s, 0)
            == Success(([TypeParameter(s[1..p], [JavaClassifierType(Deferred(r, ByInternalName(s[p + 3..q])), [])])], q + 2))
  {
    var b := JavaClassifierType(Deferred(r, ByInternalName(s[p + 3..q])), []);
    assert TopLevelClassRef(o, r, s, p + 1) == Success((None, p + 1));
    assert TopLevelClassRef(o, r, s, p + 2) == Success((Some(b), q + 1)) by {
      SpacelessClassRef(o, r, s, p + 2, q);
    }
    assert [] + [b] == [b];
    assert Bounds(o, r, s, q + 1, BoundsState(Some([b]), false)) == Success(([b], q + 1));
    assert Bounds(o, r, s, p + 1, BoundsState(None, false)) == Success(([b], q + 1));
    assert Bounds(o, r, s, p, BoundsState(None, false)) == Success(([b], q + 1));
    SingleTypeParameter(o, r, s, p, [b], q + 1);
  }

  /** A class reference cut off before its ';' is malformed. */
  lemma UnterminatedClassRef(o: ClassifierResolver, r: ClassifierResolver, s: string)
    requires 0 < |s| && s[0] == 'L' && NameChars(s[1..])
    ensures TypeString(o, r, s, 0) == Failure(ClsFormatException)
  {
    ClassNameRun(o, r, s, 1, |s|, "", []);
    assert s[1..|s|] == s[1..];
    assert ClassRefLoop(o, r, s, |s|, WithoutSpaces(s[1..]), []) == Failure(ClsFormatException);
    assert ClassRef(o, r, s, 0) == Failure(ClsFormatException);
    assert Dimensions(s, 0) == 0;
    assert TypeWithoutVarianceAndArray(o, r, s, 0) == Failure(ClsFormatException);
  }

  /** A type-variable reference whose text reaches the end before any `;` or `>` is rejected. */
  lemma UnterminatedTypeVariableRef(r: ClassifierResolver, s: string, i: nat)
    requires i < |s| && s[i] == 'T'
    requires forall k :: i < k < |s| ==> s[k] != ';' && s[k] != '>' && s[k] != DONE
    ensures TypeVariableRef(r, s, i) == Failure(ClsFormatException)
  {
    var j := ScanUntil(s, i + 1, {';', '>', DONE});
  }

  /** A type-variable reference closed by a `;` or `>` at `k`, with no `DONE` character before it, is
      read, ending at or before `k + 1`. */
  lemma TerminatedTypeVariableRef(r: ClassifierResolver, s: string, i: nat, k: nat)
    requires i < k < |s| && s[i] == 'T' && (s[k] == ';' || s[k] == '>')
    requires forall m :: i < m < k ==> s[m] != DONE
    ensures TypeVariableRef(r, s, i).Success? && TypeVariableRef(r, s, i).value.1 <= k + 1
  {
    var j := ScanUntil(s, i + 1, {';', '>', DONE});
    assert j < |s| && s[j] != DONE;
  }

  /** `parseTypeString` rejects a character, after the array dimensions, that starts no class, type
      variable or primitive. */
  lemma NoProductionRejected(o: ClassifierResolver, r: ClassifierResolver, s: string, i: nat)
    requires i <= |s|
    requires var c := At(s, i + Dimensions(s, i)); c != 'L' && c != 'T' && PrimitiveOf(c).None?
    ensures TypeString(o, r, s, i) == Failure(ClsFormatException)
  {
    var d := Dimensions(s, i);
    assert TypeWithoutVarianceAndArray(o, r, s, i + d) == Success((None, i + d));
  }

  // Concrete signatures. Each literal is first taken apart by a `...Shape` lemma.

  lemma ListOfStringShape()
    ensures var s := "Ljava/util/List<Ljava/lang/String;>;";
            |s| == 36 && s[0] == 'L' && s[15] == '<' && s[16] == 'L' && s[33] == ';' && s[34] == '>' && s[35] == ';'
            && s[1..15] == "java/util/List" && s[17..33] == "java/lang/String"
  {
    var n, m := "java/util/List", "java/lang/String";
    var s := "L" + n + "<L" + m + ";>;";
    assert s == "Ljava/util/List<Ljava/lang/String;>;";
    assert s[1..15] == n;
    assert s[17..33] == m;
  }

  lemma PlainNames()
    ensures NameChars("java/util/List") && ' ' !in "java/util/List" && "java/util/List" != JLO_INTERNAL_NAME
    ensures NameChars("java/lang/String") && ' ' !in "java/lang/String" && "java/lang/String" != JLO_INTERNAL_NAME
    ensures NameChars("java/lang/Runnable") && ' ' !in "java/lang/Runnable" && "java/lang/Runnable" != JLO_INTERNAL_NAME
  {
    PlainName("java/util/List");
    PlainName("java/lang/String");
    PlainName("java/lang/Runnable");
    assert "java/lang/String"[10] != JLO_INTERNAL_NAME[10];
  }

  /** A name of letters and '/' only is free of stop characters and spaces. */
  lemma PlainName(n: string)
    requires forall k :: 0 <= k < |n| ==> 'a' <= n[k] <= 'z' || 'A' <= n[k] <= 'Z' || n[k] == '/'
    ensures NameChars(n) && ' ' !in n
  {
  }

  /** `List<String>` */
  lemma ExampleParameterizedType(o: ClassifierResolver, r: ClassifierResolver)
    ensures ClassRef(o, r, "Ljava/util/List<Ljava/lang/String;>;", 0)
            == Success((JavaClassifierType(Deferred(r, ByInternalName("java/util/List")),
                                           [JavaClassifierType(Deferred(r, ByInternalName("java/lang/String")), [])]), 36))
  {
    ListOfStringShape();
    PlainNames();
    ParameterizedClassRef(o, r, "Ljava/util/List<Ljava/lang/String;>;", 15, 33);
  }

  lemma InnerClassShape()
    ensures var s := "Lp/Outer<TA;>.Inner<TB;>;";
            |s| == 25 && s[0] == 'L' && s[8] == '<' && s[9] == 'T' && s[11] == ';' && s[12] == '>'
            && s[19] == '<' && s[20] == 'T' && s[22] == ';' && s[23] == '>' && s[24] == ';'
            && s[1..8] == "p/Outer" && s[10..11] == "A" && s[13..19] == ".Inner" && s[21..22] == "B"
  {
    var s := "L" + "p/Outer" + "<T" + "A" + ";>" + ".Inner" + "<T" + "B" + ";>;";
    assert s == "Lp/Outer<TA;>.Inner<TB;>;";
    assert s[1..8] == "p/Outer";
    assert s[10..11] == "A";
    assert s[13..19] == ".Inner";
    assert s[21..22] == "B";
  }

  /** `p.Outer<A>.Inner<B>` */
  lemma ExampleInnerClassArguments(o: ClassifierResolver, r: ClassifierResolver)
    ensures ClassRef(o, r, "Lp/Outer<TA;>.Inner<TB;>;", 0)
            == Success((JavaClassifierType(Deferred(r, ByInternalName("p/Outer.Inner")),
                                           [JavaClassifierType(Deferred(r, ByName("B")), []),
                                            JavaClassifierType(Deferred(r, ByName("A")), [])]), 25))
  {
    InnerClassShape();
    assert "p/Outer" + ".Inner" == "p/Outer.Inner";
    assert NameChars("p/Outer") && NameChars(".Inner") && "p/Outer.Inner" != JLO_INTERNAL_NAME;
    InnerClassArguments(o, r, "Lp/Outer<TA;>.Inner<TB;>;", 8, 11, 19, 22);
  }

  lemma ObjectBoundShape()
    ensures var s := "<T:Ljava/lang/Object;>";
            |s| == 22 && s[0] == '<' && s[2] == ':' && s[3] == 'L' && s[20] == ';' && s[21] == '>'
            && s[1..2] == "T" && s[4..20] == JLO_INTERNAL_NAME
  {
    var s := "<T:L" + JLO_INTERNAL_NAME + ";>";
    assert s == "<T:Ljava/lang/Object;>";
    assert s[4..20] == JLO_INTERNAL_NAME;
  }

  /** `<T:Ljava/lang/Object;>`: the sole Object bound is dropped. */
  lemma ExampleObjectBoundElided(o: ClassifierResolver, r: ClassifierResolver)
    ensures TypeParametersDeclaration(o, r, "<T:Ljava/lang/Object;>", 0) == Success(([TypeParameter("T", [])], 22))
  {
    ObjectBoundShape();
    SoleObjectBound(o, r, "<T:Ljava/lang/Object;>", 2, 20);
  }

  lemma InterfaceBoundShape()
    ensures var s := "<T::Ljava/lang/Runnable;>";
            |s| == 25 && s[0] == '<' && s[2] == ':' && s[3] == ':' && s[4] == 'L' && s[23] == ';' && s[24] == '>'
            && s[1..2] == "T" && s[5..23] == "java/lang/Runnable"
  {
    var s := "<T::L" + "java/lang/Runnable" + ";>";
    assert s == "<T::Ljava/lang/Runnable;>";
    assert s[5..23] == "java/lang/Runnable";
  }

  /** `<T::Ljava/lang/Runnable;>` */
  lemma ExampleInterfaceBound(o: ClassifierResolver, r: ClassifierResolver)
    ensures TypeParametersDeclaration(o, r, "<T::Ljava/lang/Runnable;>", 0)
            == Success(([TypeParameter("T", [JavaClassifierType(Deferred(r, ByInternalName("java/lang/Runnable")), [])])], 25))
  {
    InterfaceBoundShape();
    PlainNames();
    InterfaceBound(o, r, "<T::Ljava/lang/Runnable;>", 2, 23);
  }

  /** `[[I`: two array layers around int. */
  lemma ExampleArrayType(o: ClassifierResolver, r: ClassifierResolver)
    ensures TypeString(o, r, "[[I", 0) == Success((JavaArrayType(JavaArrayType(JavaPrimitiveType(Some(Int)))), 3))
  {
    assert Dimensions("[[I", 0) == 2;
  }

  /** The variance marks of a type argument: `*` is the unbounded wildcard, `+` an extends bound, `-` a
      super bound, and `=`, `.` or no mark the type itself. */
  lemma ExampleStarMark(o: ClassifierResolver, r: ClassifierResolver)
    ensures Element(o, r, "*", 0) == Success((JavaWildcardType(None, true), 1))
  {
  }

  lemma ExamplePlusMark(o: ClassifierResolver, r: ClassifierResolver)
    ensures Element(o, r, "+I", 0) == Success((JavaWildcardType(Some(JavaPrimitiveType(Some(Int))), true), 2))
  {
    assert Dimensions("+I", 1) == 0;
  }

  lemma ExampleMinusMark(o: ClassifierResolver, r: ClassifierResolver)
    ensures Element(o, r, "-I", 0) == Success((JavaWildcardType(Some(JavaPrimitiveType(Some(Int))), false), 2))
  {
    assert Dimensions("-I", 1) == 0;
  }

  lemma ExampleEqualsMark(o: ClassifierResolver, r: ClassifierResolver)
    ensures Element(o, r, "=I", 0) == Success((JavaPrimitiveType(Some(Int)), 2))
  {
    assert Dimensions("=I", 1) == 0;
  }

  lemma ExampleNoMark(o: ClassifierResolver, r: ClassifierResolver)
    ensures Element(o, r, "I", 0) == Success((JavaPrimitiveType(Some(Int)), 1))
  {
  }

  /** `Ljava/lang/String` without its ';' */
  lemma ExampleUnterminatedClassRef(o: ClassifierResolver, r: ClassifierResolver)
    ensures TypeString(o, r, "Ljava/lang/String", 0) == Failure(ClsFormatException)
  {
    var s := "L" + "java/lang/String";
    assert s == "Ljava/lang/String";
    assert s[1..] == "java/lang/String";
    PlainNames();
    UnterminatedClassRef(o, r, s);
  }

  /** A parse result without its end index. */
  function Value<T>(p: Parsed<T>): Result<T, Failure> {
    match p
    case Success((v, _)) => Success(v)
    case Failure(e) => Failure(e)
  }

  // ---------------------------------------------------------------------------------------------
  // The parser over a cursor

  class SignatureParsingComponent {
    /** The component's own resolver: the scope through which its shared `java.lang.Object` type
        (`JAVA_LANG_OBJECT_CLASSIFIER_TYPE`) resolves. */
    const resolver: ClassifierResolver

    constructor (resolver: ClassifierResolver)
      ensures this.resolver == resolver
    {
      this.resolver := resolver;
    }

    method ParseTypeParametersDeclaration(signature: Cursor, r: ClassifierResolver)
      returns (res: Result<seq<TypeParameter>, Failure>)
      requires signature.Valid()
      modifies signature
      ensures signature.Valid()
      ensures Agrees(res, TypeParametersDeclaration(resolver, r, signature.text, old(signature.pos)), signature.pos)
    {
      if signature.Current() != '<' {
        return Success([]);
      }
      ghost var spec := TypeParametersDeclaration(resolver, r, signature.text, old(signature.pos));
      var typeParameters: seq<TypeParameter> := [];
      signature.Next();
      while signature.Current() != '>'
        invariant signature.Valid()
        invariant TypeParametersLoop(resolver, r, signature.text, signature.pos, typeParameters) == spec
        decreases |signature.text| - signature.pos
      {
        var tp := ParseTypeParameter(signature, r);
        if tp.Failure? {
          return Failure(tp.error);
        }
        typeParameters := typeParameters + [tp.value];
      }
      signature.Next();
      return Success(typeParameters);
    }

    method ParseTypeParameter(signature: Cursor, r: ClassifierResolver) returns (res: Result<TypeParameter, Failure>)
      requires signature.Valid()
      modifies signature
      ensures signature.Valid()
      ensures Agrees(res, TypeParameterAt(resolver, r, signature.text, old(signature.pos)), signature.pos)
    {
      ghost var s := signature.text;
      ghost var start := signature.pos;
      var name := "";
      while signature.Current() != ':' && signature.Current() != DONE
        invariant signature.Valid() && start <= signature.pos
        invariant name == s[start..signature.pos]
        invariant ScanUntil(s, signature.pos, {':', DONE}) == ScanUntil(s, start, {':', DONE})
        decreases |s| - signature.pos
      {
        name := name + [signature.Current()];
        signature.Next();
      }
      if signature.Current() == DONE {
        return Failure(ClsFormatException);
      }
      ghost var spec := Bounds(resolver, r, s, signature.pos, BoundsState(None, false));
      // the list is allocated only once a bound other than a leading Object is seen
      var bounds: Option<seq<JavaType>> := None;
      var jlo := false;
      while signature.Current() == ':'
        invariant signature.Valid()
        invariant Bounds(resolver, r, s, signature.pos, BoundsState(bounds, jlo)) == spec
        decreases |s| - signature.pos
      {
        signature.Next();
        var bound := ParseTopLevelClassRefSignature(signature, r);
        if bound.Failure? {
          return Failure(bound.error);
        }
        if bound.value.None? {
          continue;
        }
        var b := bound.value.value;
        if bounds.None? {
          if b == JavaLangObject(resolver) {
            jlo := true;
            continue;
          }
          bounds := Some(if jlo then [JavaLangObject(resolver)] else []);
        }
        bounds := Some(bounds.value + [b]);
      }
      return Success(TypeParameter(name, bounds.GetOr([])));
    }

    method ParseTopLevelClassRefSignature(signature: Cursor, r: ClassifierResolver)
      returns (res: Result<Option<JavaType>, Failure>)
      requires signature.Valid()
      modifies signature
      ensures signature.Valid()
      ensures Agrees(res, TopLevelClassRef(resolver, r, signature.text, old(signature.pos)), signature.pos)
    {
      var c := signature.Current();
      if c == 'L' {
        var t := ParseParameterizedClassRefSignature(signature, r);
        if t.Failure? {
          return Failure(t.error);
        }
        return Success(Some(t.value));
      } else if c == 'T' {
        var t := ParseTypeVariableRefSignature(signature, r);
        if t.Failure? {
          return Failure(t.error);
        }
        return Success(Some(t.value));
      }
      return Success(None);
    }

    method ParseTypeVariableRefSignature(signature: Cursor, r: ClassifierResolver) returns (res: Result<JavaType, Failure>)
      requires signature.Valid() && signature.Current() == 'T'
      modifies signature
      ensures signature.Valid()
      ensures Agrees(res, TypeVariableRef(r, signature.text, old(signature.pos)), signature.pos)
    {
      ghost var s := signature.text;
      var id := "";
      signature.Next();
      ghost var start := signature.pos;
      while signature.Current() != ';' && signature.Current() != '>' && signature.Current() != DONE
        invariant signature.Valid() && start <= signature.pos
        invariant id == s[start..signature.pos]
        invariant ScanUntil(s, signature.pos, {';', '>', DONE}) == ScanUntil(s, start, {';', '>', DONE})
        decreases |s| - signature.pos
      {
        id := id + [signature.Current()];
        signature.Next();
      }
      if signature.Current() == DONE {
        return Failure(ClsFormatException);
      }
      if signature.Current() == ';' {
        signature.Next();
      }
      return Success(JavaClassifierType(Deferred(r, ByName(id)), []));
    }

    method ParseParameterizedClassRefSignature(signature: Cursor, r: ClassifierResolver)
      returns (res: Result<JavaType, Failure>)
      requires signature.Valid() && signature.Current() == 'L'
      modifies signature
      ensures signature.Valid()
      ensures Agrees(res, ClassRef(resolver, r, signature.text, old(signature.pos)), signature.pos)
      decreases |signature.text| - signature.pos, 1
    {
      ghost var s := signature.text;
      ghost var spec := ClassRef(resolver, r, s, signature.pos);
      var canonicalName := "";
      var argumentGroups: seq<seq<JavaType>> := [];
      signature.Next();
      while signature.Current() != ';' && signature.Current() != DONE
        invariant signature.Valid() && old(signature.pos) < signature.pos
        invariant ClassRefLoop(resolver, r, s, signature.pos, canonicalName, argumentGroups) == spec
        decreases |s| - signature.pos
      {
        var c := signature.Current();
        if c == '<' {
          var group: seq<JavaType> := [];
          signature.Next();
          ghost var gspec := ArgumentGroup(resolver, r, s, signature.pos, []);
          // do { ... } while (current() != '>')
          var e := ParseClassOrTypeVariableElement(signature, r);
          if e.Failure? {
            return Failure(e.error);
          }
          group := group + [e.value];
          while signature.Current() != '>'
            invariant signature.Valid() && old(signature.pos) < signature.pos
            invariant (if At(s, signature.pos) == '>' then Success((group, signature.pos))
                       else ArgumentGroup(resolver, r, s, signature.pos, group)) == gspec
            decreases |s| - signature.pos
          {
            e := ParseClassOrTypeVariableElement(signature, r);
            if e.Failure? {
              return Failure(e.error);
            }
            group := group + [e.value];
          }
          argumentGroups := argumentGroups + [group];
        } else if c != ' ' {
          canonicalName := canonicalName + [c];
        }
        signature.Next();
      }
      if signature.Current() == DONE {
        return Failure(ClsFormatException);
      }
      signature.Next();
      if canonicalName == JLO_INTERNAL_NAME {
        return Success(JavaLangObject(resolver));
      }
      return Success(JavaClassifierType(Deferred(r, ByInternalName(canonicalName)), ReversedFlatten(argumentGroups)));
    }

    method ParseClassOrTypeVariableElement(signature: Cursor, r: ClassifierResolver)
      returns (res: Result<JavaType, Failure>)
      requires signature.Valid()
      modifies signature
      ensures signature.Valid()
      ensures Agrees(res, Element(resolver, r, signature.text, old(signature.pos)), signature.pos)
      decreases |signature.text| - signature.pos, 4
    {
      var variance := ParseVariance(signature);
      if variance == Star {
        return Success(JavaWildcardType(None, true));
      }
      var t := ParseTypeString(signature, r);
      if t.Failure? || variance == NoVariance {
        return t;
      }
      return Success(JavaWildcardType(Some(t.value), variance == Plus));
    }

    method ParseVariance(signature: Cursor) returns (variance: Variance)
      requires signature.Valid()
      modifies signature
      ensures signature.Valid()
      ensures variance == VarianceOf(At(signature.text, old(signature.pos))).0
      ensures signature.pos == if VarianceOf(At(signature.text, old(signature.pos))).1
                               then Advance(signature.text, old(signature.pos)) else old(signature.pos)
    {
      var advance := true;
      var c := signature.Current();
      if c == '+' {
        variance := Plus;
      } else if c == '-' {
        variance := Minus;
      } else if c == '*' {
        variance := Star;
      } else if c == '.' || c == '=' {
        variance := NoVariance;
      } else {
        advance := false;
        variance := NoVariance;
      }
      if advance {
        signature.Next();
      }
    }

    method ParseDimensions(signature: Cursor) returns (dimensions: nat)
      requires signature.Valid()
      modifies signature
      ensures signature.Valid()
      ensures dimensions == Dimensions(signature.text, old(signature.pos))
      ensures signature.pos == old(signature.pos) + dimensions
    {
      dimensions := 0;
      while signature.Current() == '['
        invariant signature.Valid() && signature.pos == old(signature.pos) + dimensions
        invariant Dimensions(signature.text, old(signature.pos)) == dimensions + Dimensions(signature.text, signature.pos)
        decreases |signature.text| - signature.pos
      {
        dimensions := dimensions + 1;
        signature.Next();
      }
    }

    method ParseTypeString(signature: Cursor, r: ClassifierResolver) returns (res: Result<JavaType, Failure>)
      requires signature.Valid()
      modifies signature
      ensures signature.Valid()
      ensures Agrees(res, TypeString(resolver, r, signature.text, old(signature.pos)), signature.pos)
      decreases |signature.text| - signature.pos, 3
    {
      var dimensions := ParseDimensions(signature);
      var t := ParseTypeWithoutVarianceAndArray(signature, r);
      if t.Failure? {
        return Failure(t.error);
      }
      if t.value.None? {
        return Failure(ClsFormatException);
      }
      return Success(WrapArray(t.value.value, dimensions));
    }

    /** `mapAsmType`: a whole field descriptor (ASM's `Type.descriptor`) parsed as a type string. */
    method MapAsmType(descriptor: string, r: ClassifierResolver) returns (res: Result<JavaType, Failure>)
      ensures res == Value(TypeString(resolver, r, descriptor, 0))
    {
      var signature := new Cursor(descriptor);
      res := ParseTypeString(signature, r);
    }

    method ParseTypeWithoutVarianceAndArray(signature: Cursor, r: ClassifierResolver)
      returns (res: Result<Option<JavaType>, Failure>)
      requires signature.Valid()
      modifies signature
      ensures signature.Valid()
      ensures Agrees(res, TypeWithoutVarianceAndArray(resolver, r, signature.text, old(signature.pos)), signature.pos)
      decreases |signature.text| - signature.pos, 2
    {
      var t: JavaType;
      match signature.Current() {
        case 'L' =>
          var c := ParseParameterizedClassRefSignature(signature, r);
          if c.Failure? {
            return Failure(c.error);
          }
          t := c.value;
        case 'T' =>
          var c := ParseTypeVariableRefSignature(signature, r);
          if c.Failure? {
            return Failure(c.error);
          }
          t := c.value;
        case 'B' => t := ParsePrimitiveType(signature, Some(Byte));
        case 'C' => t := ParsePrimitiveType(signature, Some(Char));
        case 'D' => t := ParsePrimitiveType(signature, Some(Double));
        case 'F' => t := ParsePrimitiveType(signature, Some(Float));
        case 'I' => t := ParsePrimitiveType(signature, Some(Int));
        case 'J' => t := ParsePrimitiveType(signature, Some(Long));
        case 'Z' => t := ParsePrimitiveType(signature, Some(Boolean));
        case 'S' => t := ParsePrimitiveType(signature, Some(Short));
        case 'V' => t := ParsePrimitiveType(signature, None);
        case _ => return Success(None);
      }
      return Success(Some(t));
    }

    method ParsePrimitiveType(signature: Cursor, primitiveType: Option<PrimitiveKind>) returns (t: JavaType)
      requires signature.Valid()
      modifies signature
      ensures signature.Valid() && signature.pos == Advance(signature.text, old(signature.pos))
      ensures t == JavaPrimitiveType(primitiveType)
    {
      signature.Next();
      return JavaPrimitiveType(primitiveType);
    }
  }
}
