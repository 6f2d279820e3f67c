/** `JavaClassifierTypeByFqName.createByCanonicalText`: the parser of the canonical text of a Java type,
    such as `a.b.C<D, ? extends E>[]`. It walks the text with an index, accumulating the qualified name,
    the `<...>` argument groups and an array marker, and builds the same type shapes as the class-file
    parser; a classifier built here is looked up by its qualified name when it is queried. */
module CanonicalText {
  import opened Wrappers
  import opened Sequences
  import opened JavaStructure

  /** `Parsed(classFqName, arguments, isArray, rest)`: what one type of the text gives, and the index
      just after it. */
  datatype TypeInfo = TypeInfo(classFqName: string, arguments: seq<JavaType>, isArray: bool, rest: nat)

  /** The characters that end a type without being consumed. */
  predicate IsStop(c: char) {
    c == ' ' || c == ',' || c == '&' || c == '>'
  }

  /** The characters that accumulate into a qualified name. */
  predicate IsNameChar(c: char) {
    c != '<' && c != '[' && !IsStop(c)
  }

  const EXTENDS: string := "extends "
  const SUPER: string := "super "
  const ARRAY_MESSAGE: string := "Classifier type can't be an array"
  const SYMBOLS_LEFT: string := "Symbols left in canonical name: "
  const EXPECTED_BRACKET: string := "Expected ] for array type"
  const UNEXPECTED_WILDCARD: string := "Unexpected wildcard type: "
  /** The message of the corrected argument loop, for a character at which no type argument starts. */
  const UNEXPECTED_ARGUMENT: string := "Unexpected type argument: "

  /** `JavaClassifierTypeByFqName(classFqName, arguments)` */
  function ClassifierOf(info: TypeInfo): JavaType {
    JavaClassifierType(ByFqName(info.classFqName), info.arguments)
  }

  /** `s` holds `w` at index `i`. */
  predicate Occurs(s: string, i: nat, w: string) {
    i + |w| <= |s| && s[i..i + |w|] == w
  }

  // ---------------------------------------------------------------------------------------------
  // The parser as functions of the text and an index. The measure is the length of the text still
  // ahead, then a rank that orders the functions calling one another at the same index.

  /** The loop of `parseClassifierOrArrayTypeInfo` from index `i`, with the argument groups and the name
      so far. Name characters accumulate; `<` reads an argument group; `[` must be followed by `]` and
      ends an array type; a stop character or the end of the text ends a classifier type. The arguments
      are the groups flattened in reverse order, so those found so far come last. */
  function InfoLoop(s: string, i: nat, groups: seq<seq<JavaType>>, name: string): (r: Result<TypeInfo, Failure>)
    requires i <= |s|
    ensures r.Success? ==> i <= r.value.rest <= |s|
    ensures r.Success? ==> EndsWith(r.value.arguments, ReversedFlatten(groups))
    ensures r.Success? && !r.value.isArray ==> r.value.rest == |s| || IsStop(s[r.value.rest])
    ensures r.Success? && r.value.isArray ==> 2 <= r.value.rest && s[r.value.rest - 2] == '[' && s[r.value.rest - 1] == ']'
    ensures r.Success? && r.value.rest == i ==> !r.value.isArray && r.value.classFqName == name
    decreases |s| - i, 2
  {
    if i == |s| then
      Success(TypeInfo(name, ReversedFlatten(groups), false, i))
    else if s[i] == '<' then
      match TypeArguments(s, i)
      case Failure(e) => Failure(e)
      case Success((j, args)) =>
        var r := InfoLoop(s, j, groups + [args], name);
        ReversedFlattenSnoc(groups, args);
        if r.Success? then EndsWithAppend(r.value.arguments, args, ReversedFlatten(groups)); r else r
    else if s[i] == '[' then
      if i + 1 < |s| && s[i + 1] == ']' then
        Success(TypeInfo(name, ReversedFlatten(groups), true, i + 2))
      else Failure(AssertionError(EXPECTED_BRACKET))
    else if IsStop(s[i]) then
      Success(TypeInfo(name, ReversedFlatten(groups), false, i))
    else InfoLoop(s, i + 1, groups, name + [s[i]])
  }

  /** `parseClassifierOrArrayTypeInfo(s, i)` */
  function TypeInfoAt(s: string, i: nat): (r: Result<TypeInfo, Failure>)
    requires i <= |s|
    ensures r.Success? ==> i <= r.value.rest <= |s|
    decreases |s| - i, 3
  {
    InfoLoop(s, i, [], [])
  }

  /** `parseClassifierOrArrayType(s, i)`: the classifier type of the parsed name and arguments, wrapped in
      an array type when the text marked one. It consumes nothing only at the end of the text or at a
      stop character, and then gives a classifier type with an empty name and no arguments. */
  function ClassifierOrArrayType(s: string, i: nat): (r: Result<(nat, JavaType), Failure>)
    requires i <= |s|
    ensures r.Success? ==> i <= r.value.0 <= |s|
    ensures r.Success? && r.value.0 == i ==> i == |s| || IsStop(s[i])
    decreases |s| - i, 4
  {
    match TypeInfoAt(s, i)
    case Failure(e) => Failure(e)
    case Success(info) =>
      Success((info.rest, if info.isArray then JavaArrayType(ClassifierOf(info)) else ClassifierOf(info)))
  }

  /** `parseArgs(s, i)` at a `<`: the arguments up to the matching `>`, and the index just past it. */
  function TypeArguments(s: string, i: nat): (r: Result<(nat, seq<JavaType>), Failure>)
    requires i < |s| && s[i] == '<'
    ensures r.Success? ==> i < r.value.0 <= |s|
    decreases |s| - i, 1
  {
    ArgsLoop(s, i + 1, [])
  }

  /** The loop of `parseArgs` from index `i` with the arguments so far: a `?` reads a wildcard, `>` ends
      the list, spaces and commas are skipped, and anything else reads a classifier or array type. Running
      off the end of the text is a `StringIndexOutOfBoundsException`. Corrected: a character at which no
      type is read (only `&` is one) is rejected, where the loop as written would stay there for ever. */
  function ArgsLoop(s: string, i: nat, acc: seq<JavaType>): (r: Result<(nat, seq<JavaType>), Failure>)
    requires i <= |s|
    ensures r.Success? ==> i < r.value.0 <= |s|
    decreases |s| - i, 6
  {
    if i == |s| then Failure(StringIndexOutOfBoundsException)
    else if s[i] == '?' then
      match Wildcard(s, i)
      case Failure(e) => Failure(e)
      case Success((j, isExtends, bound)) => ArgsLoop(s, j, acc + [JavaWildcardType(bound, isExtends)])
    else if s[i] == '>' then Success((i + 1, acc))
    else if s[i] == ' ' || s[i] == ',' then ArgsLoop(s, i + 1, acc)
    else
      match ClassifierOrArrayType(s, i)
      case Failure(e) => Failure(e)
      case Success((j, t)) =>
        if j == i then Failure(IllegalStateException(UNEXPECTED_ARGUMENT + s[i..]))
        else ArgsLoop(s, j, acc + [t])
  }

  /** `parseWildcard(s, i)` at a `?`: an unbounded wildcard when no space follows; `? extends T` and
      `? super T` are bounded by `T`; anything else after `? ` is an `IllegalStateException` naming the
      rest of the text. */
  function Wildcard(s: string, i: nat): (r: Result<(nat, bool, Option<JavaType>), Failure>)
    requires i < |s| && s[i] == '?'
    ensures r.Success? ==> i < r.value.0 <= |s|
    ensures r.Success? && r.value.2.None? ==> r.value.0 == i + 1 && r.value.1
    decreases |s| - i, 5
  {
    if i + 1 == |s| then Failure(StringIndexOutOfBoundsException)
    else if s[i + 1] != ' ' then Success((i + 1, true, None))
    else if StartsWith(s[i + 2..], EXTENDS) then WildcardBound(s, i + 2 + |EXTENDS|, true)
    else if StartsWith(s[i + 2..], SUPER) then WildcardBound(s, i + 2 + |SUPER|, false)
    else Failure(IllegalStateException(UNEXPECTED_WILDCARD + s[i + 2..]))
  }

  /** The bound of a wildcard at index `k`, followed by any ` &` intersection types, which are read and
      dropped. */
  function WildcardBound(s: string, k: nat, isExtends: bool): (r: Result<(nat, bool, Option<JavaType>), Failure>)
    requires k <= |s|
    ensures r.Success? ==> k <= r.value.0 <= |s| && r.value.1 == isExtends && r.value.2.Some?
    decreases |s| - k, 5
  {
    match ClassifierOrArrayType(s, k)
    case Failure(e) => Failure(e)
    case Success((rest, bound)) =>
      match Intersections(s, rest)
      case Failure(e) => Failure(e)
      case Success(end) => Success((end, isExtends, Some(bound)))
  }

  /** The intersection loop of `parseWildcard`: while a space and `&` follow `rest`, the classifier reader
      is run from the character just after the `&` and `rest` moves to where it stops. In canonical text
      that character is the space before the next bound, where the reader stops at once, so the loop
      ends there and the bound itself is left to the enclosing argument loop. */
  function Intersections(s: string, rest: nat): (r: Result<nat, Failure>)
    requires rest <= |s|
    ensures r.Success? ==> rest <= r.value <= |s|
    ensures r.Success? ==> !(r.value + 1 < |s| && s[r.value] == ' ' && s[r.value + 1] == '&')
    decreases |s| - rest, 3
  {
    if rest + 1 < |s| && s[rest] == ' ' && s[rest + 1] == '&' then
      match ClassifierOrArrayType(s, rest + 2)
      case Failure(e) => Failure(e)
      case Success((j, _)) => Intersections(s, j)
    else Success(rest)
  }

  /** `createByCanonicalText(text)`: the classifier type the whole text denotes. An array type, and text
      left over after the type, are `AssertionError`s (assertions are taken to be enabled). */
  function ClassifierTypeByCanonicalText(text: string): (r: Result<JavaType, Failure>)
    ensures r.Success? ==> r.value.JavaClassifierType? && r.value.classifier.ByFqName?
  {
    match TypeInfoAt(text, 0)
    case Failure(e) => Failure(e)
    case Success(info) =>
      if info.isArray then Failure(AssertionError(ARRAY_MESSAGE))
      else if info.rest != |text| then Failure(AssertionError(SYMBOLS_LEFT + text[info.rest..]))
      else Success(ClassifierOf(info))
  }

  /** An argument list that is read ends just after a `>`. */
  lemma {:induction false} ArgsLoopEndsAfterBracket(s: string, i: nat, acc: seq<JavaType>)
    requires i <= |s|
    ensures ArgsLoop(s, i, acc).Success? ==> s[ArgsLoop(s, i, acc).value.0 - 1] == '>'
    decreases |s| - i
  {
    if i == |s| || s[i] == '>' {
    } else if s[i] == '?' {
      var w := Wildcard(s, i);
      if w.Success? {
        var (j, isExtends, bound) := w.value;
        ArgsLoopEndsAfterBracket(s, j, acc + [JavaWildcardType(bound, isExtends)]);
      }
    } else if s[i] == ' ' || s[i] == ',' {
      ArgsLoopEndsAfterBracket(s, i + 1, acc);
    } else {
      var c := ClassifierOrArrayType(s, i);
      if c.Success? && c.value.0 != i {
        ArgsLoopEndsAfterBracket(s, c.value.0, acc + [c.value.1]);
      }
    }
  }

  /** An argument group that is read ends just after its `>`. */
  lemma TypeArgumentsEndAfterBracket(s: string, i: nat)
    requires i < |s| && s[i] == '<'
    ensures TypeArguments(s, i).Success? ==> s[TypeArguments(s, i).value.0 - 1] == '>'
  {
    ArgsLoopEndsAfterBracket(s, i + 1, []);
  }

  // ---------------------------------------------------------------------------------------------
  // Queries on a type built from canonical text

  /** `canonicalText`, and `presentableText`: the qualified name alone, without the arguments. */
  function CanonicalTextOf(t: JavaType): string
    requires t.JavaClassifierType? && t.classifier.ByFqName?
  {
    t.classifier.qName
  }

  /** `isRaw(f)`: a type without arguments whose name the factory `findClassifier` finds as a class with
      type parameters. */
  predicate IsRaw(t: JavaType, findClassifier: string -> Option<Classifier>)
    requires t.JavaClassifierType? && t.classifier.ByFqName?
  {
    t.typeArguments == []
    && match findClassifier(t.classifier.qName)
       case Some(ClassClassifier(c)) => c.typeParameterNames != []
       case _ => false
  }

  // ---------------------------------------------------------------------------------------------
  // The parser as the source writes it: an index advanced by loops

  method ParseClassifierOrArrayTypeInfo(s: string, start: nat) returns (res: Result<TypeInfo, Failure>)
    requires start <= |s|
    ensures res == TypeInfoAt(s, start)
    decreases |s| - start, 3
  {
    var argumentGroups: seq<seq<JavaType>> := [];
    var i := start;
    var fqNameBuilder: string := [];
    while i < |s|
      invariant start <= i <= |s|
      invariant InfoLoop(s, i, argumentGroups, fqNameBuilder) == TypeInfoAt(s, start)
      decreases |s| - i
    {
      if s[i] == '<' {
        var parsed := ParseArgs(s, i);
        if parsed.Failure? {
          return Failure(parsed.error);
        }
        var (j, args) := parsed.value;
        i := j;
        argumentGroups := argumentGroups + [args];
      } else if s[i] == '[' {
        i := i + 1;
        if !(i < |s| && s[i] == ']') {
          return Failure(AssertionError(EXPECTED_BRACKET));
        }
        i := i + 1;
        return Success(TypeInfo(fqNameBuilder, ReversedFlatten(argumentGroups), true, i));
      } else if IsStop(s[i]) {
        break;
      } else {
        fqNameBuilder := fqNameBuilder + [s[i]];
        i := i + 1;
      }
    }
    res := Success(TypeInfo(fqNameBuilder, ReversedFlatten(argumentGroups), false, i));
  }

  method ParseClassifierOrArrayType(s: string, start: nat) returns (res: Result<(nat, JavaType), Failure>)
    requires start <= |s|
    ensures res == ClassifierOrArrayType(s, start)
    decreases |s| - start, 4
  {
    var info := ParseClassifierOrArrayTypeInfo(s, start);
    if info.Failure? {
      return Failure(info.error);
    }
    var classifierType := ClassifierOf(info.value);
    var result := if info.value.isArray then JavaArrayType(classifierType) else classifierType;
    res := Success((info.value.rest, result));
  }

  /** `parseArgs`, with the correction of `ArgsLoop`. */
  method ParseArgs(s: string, start: nat) returns (res: Result<(nat, seq<JavaType>), Failure>)
    requires start < |s| && s[start] == '<'
    ensures res == TypeArguments(s, start)
    decreases |s| - start, 1
  {
    var result: seq<JavaType> := [];
    var i := start + 1;
    while true
      invariant start < i <= |s|
      invariant ArgsLoop(s, i, result) == TypeArguments(s, start)
      decreases |s| - i
    {
      if i == |s| {
        return Failure(StringIndexOutOfBoundsException);
      }
      if s[i] == '?' {
        var wildcard := ParseWildcard(s, i);
        if wildcard.Failure? {
          return Failure(wildcard.error);
        }
        var (j, isExtends, bound) := wildcard.value;
        result := result + [JavaWildcardType(bound, isExtends)];
        i := j;
      } else if s[i] == '>' {
        i := i + 1;
        return Success((i, result));
      } else if s[i] == ' ' || s[i] == ',' {
        i := i + 1;
      } else {
        var parsed := ParseClassifierOrArrayType(s, i);
        if parsed.Failure? {
          return Failure(parsed.error);
        }
        var (j, t) := parsed.value;
        if j == i {
          return Failure(IllegalStateException(UNEXPECTED_ARGUMENT + s[i..]));
        }
        i := j;
        result := result + [t];
      }
    }
  }

  method ParseWildcard(s: string, start: nat) returns (res: Result<(nat, bool, Option<JavaType>), Failure>)
    requires start < |s| && s[start] == '?'
    ensures res == Wildcard(s, start)
    decreases |s| - start, 5
  {
    var i := start + 1;
    if i == |s| {
      return Failure(StringIndexOutOfBoundsException);
    }
    if s[i] != ' ' {
      return Success((i, true, None));
    }
    i := i + 1;
    var left := s[i..];
    var isExtends := true;
    if StartsWith(left, EXTENDS) {
      i := i + |EXTENDS|;
    } else if StartsWith(left, SUPER) {
      isExtends := false;
      i := i + |SUPER|;
    } else {
      return Failure(IllegalStateException(UNEXPECTED_WILDCARD + left));
    }
    var parsed := ParseClassifierOrArrayType(s, i);
    if parsed.Failure? {
      return Failure(parsed.error);
    }
    var (rest, javaType) := parsed.value;
    while rest + 1 < |s| && s[rest] == ' ' && s[rest + 1] == '&'
      invariant i <= rest <= |s|
      invariant Intersections(s, rest) == Intersections(s, parsed.value.0)
      decreases |s| - rest
    {
      var next := ParseClassifierOrArrayType(s, rest + 2);
      if next.Failure? {
        return Failure(next.error);
      }
      rest := next.value.0;
    }
    res := Success((rest, isExtends, Some(javaType)));
  }

  method CreateByCanonicalText(canonicalText: string) returns (res: Result<JavaType, Failure>)
    ensures res == ClassifierTypeByCanonicalText(canonicalText)
  {
    var parsed := ParseClassifierOrArrayTypeInfo(canonicalText, 0);
    if parsed.Failure? {
      return Failure(parsed.error);
    }
    var TypeInfo(qName, args, isArray, left) := parsed.value;
    if isArray {
      return Failure(AssertionError(ARRAY_MESSAGE));
    }
    if left != |canonicalText| {
      return Failure(AssertionError(SYMBOLS_LEFT + canonicalText[left..]));
    }
    res := Success(JavaClassifierType(ByFqName(qName), args));
  }

  // ---------------------------------------------------------------------------------------------
  // Names

  /** A run of name characters is taken into the name as it stands. */
  lemma {:induction false} NameRun(s: string, i: nat, n: string, groups: seq<seq<JavaType>>, name: string)
    requires Occurs(s, i, n)
    requires forall k :: 0 <= k < |n| ==> IsNameChar(n[k])
    ensures InfoLoop(s, i, groups, name) == InfoLoop(s, i + |n|, groups, name + n)
    decreases |n|
  {
    if n == [] {
      assert name + n == name;
    } else {
      assert s[i] == n[0];
      assert Occurs(s, i + 1, n[1..]) by {
        assert s[i + 1..i + 1 + |n[1..]|] == s[i..i + |n|][1..];
      }
      NameRun(s, i + 1, n[1..], groups, name + [n[0]]);
      assert name + [n[0]] + n[1..] == name + n;
    }
  }

  lemma NoGroups()
    ensures ReversedFlatten<JavaType>([]) == []
  {
    assert Reverse<seq<JavaType>>([]) == [];
  }

  lemma OneGroup(g: seq<JavaType>)
    ensures ReversedFlatten([g]) == g
  {
    ReversedFlattenSnoc([], g);
    NoGroups();
    assert [] + [g] == [g];
  }

  /** A text made of name characters only is a classifier type of that name, without arguments. */
  lemma PlainNameText(n: string)
    requires forall k :: 0 <= k < |n| ==> IsNameChar(n[k])
    ensures ClassifierTypeByCanonicalText(n) == Success(JavaClassifierType(ByFqName(n), []))
    ensures CanonicalTextOf(ClassifierTypeByCanonicalText(n).value) == n
  {
    assert Occurs(n, 0, n) by {
      assert n[0..|n|] == n;
    }
    NameRun(n, 0, n, [], []);
    assert [] + n == n;
    NoGroups();
  }

  // ---------------------------------------------------------------------------------------------
  // Writing a type as canonical text, and reading it back

  /** A name the parser reads back as one name, also where a type argument starts. */
  predicate PlainName(n: string) {
    n != [] && n[0] != '?' && forall k :: 0 <= k < |n| ==> IsNameChar(n[k])
  }

  /** A classifier type by qualified name, with a plain name and arguments that can be written. */
  predicate Printable(t: JavaType)
    decreases t, 0
  {
    t.JavaClassifierType? && t.classifier.ByFqName? && PlainName(t.classifier.qName)
    && forall k :: 0 <= k < |t.typeArguments| ==> PrintableArgument(t.typeArguments[k])
  }

  /** A printable classifier type or an array of one. */
  predicate PrintableComponent(t: JavaType)
    decreases t, 1
  {
    Printable(t) || (t.JavaArrayType? && Printable(t.componentType))
  }

  /** A type argument that can be written: a printable classifier or array type, an unbounded wildcard
      (which reads back as an `extends` wildcard), or a wildcard bounded by a printable classifier or
      array type. */
  predicate PrintableArgument(a: JavaType)
    decreases a, 2
  {
    match a
    case JavaWildcardType(None, isExtends) => isExtends
    case JavaWildcardType(Some(b), _) => PrintableComponent(b)
    case _ => PrintableComponent(a)
  }

  /** The canonical text of a type: `a.b.C<D,? extends E>`, `D[]`, `?`, `? super E`. */
  function Render(t: JavaType): string
    decreases t, 1
  {
    match t
    case JavaClassifierType(ByFqName(n), args) => if args == [] then n else n + "<" + RenderArguments(t, 0) + ">"
    case JavaArrayType(c) => Render(c) + "[]"
    case JavaWildcardType(None, _) => "?"
    case JavaWildcardType(Some(b), isExtends) => "? " + Keyword(isExtends) + Render(b)
    case _ => ""
  }

  /** The arguments of `t` from the `k`-th, separated by commas. */
  function RenderArguments(t: JavaType, k: nat): string
    requires t.JavaClassifierType? && k < |t.typeArguments|
    decreases t, 0, |t.typeArguments| - k
  {
    var a := t.typeArguments;
    if k + 1 == |a| then Render(a[k]) else Render(a[k]) + "," + RenderArguments(t, k + 1)
  }

  /** The argument groups a written classifier type leaves behind. */
  function Groups(t: JavaType): seq<seq<JavaType>>
    requires t.JavaClassifierType?
  {
    if t.typeArguments == [] then [] else [t.typeArguments]
  }

  lemma OccursConcat(s: string, i: nat, a: string, b: string)
    requires Occurs(s, i, a + b)
    ensures Occurs(s, i, a) && Occurs(s, i + |a|, b)
  {
    assert s[i..i + |a|] == s[i..i + |a + b|][..|a|];
    assert s[i + |a|..i + |a| + |b|] == s[i..i + |a + b|][|a|..];
  }

  /** At a `<`, the argument group read there is recorded and the loop goes on after it. */
  lemma GroupStep(s: string, i: nat, groups: seq<seq<JavaType>>, name: string)
    requires i < |s| && s[i] == '<' && TypeArguments(s, i).Success?
    ensures InfoLoop(s, i, groups, name)
            == InfoLoop(s, TypeArguments(s, i).value.0, groups + [TypeArguments(s, i).value.1], name)
  {
  }

  /** The written argument group of `t`, `<...>`, is read back as the arguments of `t`. */
  lemma GroupRead(t: JavaType, s: string, j: nat)
    requires Printable(t) && t.typeArguments != []
    requires Occurs(s, j, "<" + RenderArguments(t, 0) + ">")
    ensures j < |s| && s[j] == '<'
    ensures TypeArguments(s, j) == Success((j + |RenderArguments(t, 0)| + 2, t.typeArguments))
    decreases t, 0, |t.typeArguments| + 1
  {
    var inner := RenderArguments(t, 0);
    OccursConcat(s, j, "<", inner + ">");
    OccursConcat(s, j + 1, inner, ">");
    assert s[j..j + 1][0] == s[j];
    ArgumentsRead(t, 0, s, j + 1, []);
    assert [] + t.typeArguments[0..] == t.typeArguments;
  }

  /** After a written classifier type, the parser has taken its name and its one argument group. */
  lemma {:induction false} ClassifierInfo(t: JavaType, s: string, i: nat)
    requires Printable(t)
    requires Occurs(s, i, Render(t))
    ensures InfoLoop(s, i, [], []) == InfoLoop(s, i + |Render(t)|, Groups(t), t.classifier.qName)
    decreases t, 1, 1
  {
    var n := t.classifier.qName;
    var args := t.typeArguments;
    if args == [] {
      assert Render(t) == n;
      NameRun(s, i, n, [], []);
      assert [] + n == n;
      assert Groups(t) == [];
      assert InfoLoop(s, i, [], []) == InfoLoop(s, i + |n|, [], n);
    } else {
      ClassifierGroupRead(t, s, i);
    }
  }

  /** `ClassifierInfo` for a classifier type with type arguments: the name, then one argument group. */
  lemma {:induction false} ClassifierGroupRead(t: JavaType, s: string, i: nat)
    requires Printable(t) && t.typeArguments != []
    requires Occurs(s, i, Render(t))
    ensures InfoLoop(s, i, [], []) == InfoLoop(s, i + |Render(t)|, Groups(t), t.classifier.qName)
    decreases t, 1, 0
  {
    var n := t.classifier.qName;
    var args := t.typeArguments;
    var inner := RenderArguments(t, 0);
    assert Render(t) == n + ("<" + inner + ">");
    var j := i + |n|;
    calc {
      InfoLoop(s, i, [], []);
    == { OccursConcat(s, i, n, "<" + inner + ">"); NameRun(s, i, n, [], []); assert [] + n == n; }
      InfoLoop(s, j, [], n);
    == { OccursConcat(s, i, n, "<" + inner + ">"); GroupRead(t, s, j); GroupStep(s, j, [], n);
         assert [] + [args] == Groups(t); }
      InfoLoop(s, i + |Render(t)|, Groups(t), n);
    }
  }

  /** A written classifier or array type begins with the first character of its name, which starts
      neither a wildcard nor anything but a name. */
  lemma RenderStart(t: JavaType)
    requires PrintableComponent(t)
    ensures 0 < |Render(t)| && IsNameChar(Render(t)[0]) && Render(t)[0] != '?'
  {
    if !Printable(t) {
      assert Render(t) == Render(t.componentType) + "[]";
    }
  }

  /** A written classifier or array type, followed by the end of the text or a stop character, is read
      back as itself, up to its end. */
  lemma {:induction false} ComponentRead(t: JavaType, s: string, i: nat)
    requires PrintableComponent(t)
    requires Occurs(s, i, Render(t))
    requires i + |Render(t)| == |s| || IsStop(s[i + |Render(t)|])
    ensures ClassifierOrArrayType(s, i) == Success((i + |Render(t)|, t))
    ensures 0 < |Render(t)| && IsNameChar(s[i]) && s[i] != '?'
    decreases t, 2
  {
    RenderStart(t);
    assert s[i] == Render(t)[0];
    if Printable(t) {
      ClassifierRead(t, s, i);
    } else {
      ArrayRead(t, s, i);
    }
  }

  /** A written classifier type, followed by the end of the text or a stop character, is read by
      `parseClassifierOrArrayTypeInfo` as its name and arguments. */
  lemma {:induction false} ClassifierRead(t: JavaType, s: string, i: nat)
    requires Printable(t)
    requires Occurs(s, i, Render(t))
    requires i + |Render(t)| == |s| || IsStop(s[i + |Render(t)|])
    ensures TypeInfoAt(s, i) == Success(TypeInfo(t.classifier.qName, t.typeArguments, false, i + |Render(t)|))
    decreases t, 1, 2
  {
    ClassifierInfo(t, s, i);
    if t.typeArguments == [] { NoGroups(); } else { OneGroup(t.typeArguments); }
  }

  /** A written array type is read by `parseClassifierOrArrayTypeInfo` as the name and arguments of its
      component type, marked as an array, up to its end. */
  lemma {:induction false} ArrayRead(t: JavaType, s: string, i: nat)
    requires t.JavaArrayType? && Printable(t.componentType)
    requires Occurs(s, i, Render(t))
    ensures TypeInfoAt(s, i)
         == Success(TypeInfo(t.componentType.classifier.qName, t.componentType.typeArguments, true, i + |Render(t)|))
    decreases t, 1, 2
  {
    var c := t.componentType;
    assert Render(t) == Render(c) + "[]";
    OccursConcat(s, i, Render(c), "[]");
    ClassifierInfo(c, s, i);
    if c.typeArguments == [] { NoGroups(); } else { OneGroup(c.typeArguments); }
  }

  /** The keyword of a bounded wildcard. */
  function Keyword(isExtends: bool): string {
    if isExtends then EXTENDS else SUPER
  }

  /** After `? ` and the keyword of a bounded wildcard, `parseWildcard` reads the bound. */
  lemma {:induction false} WildcardKeyword(s: string, i: nat, isExtends: bool)
    requires i + 2 <= |s| && s[i] == '?' && s[i + 1] == ' ' && Occurs(s, i + 2, Keyword(isExtends))
    ensures Wildcard(s, i) == WildcardBound(s, i + 2 + |Keyword(isExtends)|, isExtends)
  {
    var keyword := Keyword(isExtends);
    assert StartsWith(s[i + 2..], keyword) by {
      assert s[i + 2..][..|keyword|] == s[i + 2..i + 2 + |keyword|];
    }
    if !isExtends {
      assert s[i + 2] == 's';
      assert !StartsWith(s[i + 2..], EXTENDS) by {
        assert s[i + 2..][0] == 's' && EXTENDS[0] == 'e';
      }
    }
  }

  /** A written bounded wildcard is `? `, its keyword and its bound, laid out one after the other. */
  lemma BoundedWildcardLayout(a: JavaType, s: string, i: nat)
    requires a.JavaWildcardType? && a.bound.Some?
    requires Occurs(s, i, Render(a))
    ensures i + 2 <= |s| && s[i] == '?' && s[i + 1] == ' ' && Occurs(s, i + 2, Keyword(a.isExtends))
    ensures Occurs(s, i + 2 + |Keyword(a.isExtends)|, Render(a.bound.value))
    ensures i + 2 + |Keyword(a.isExtends)| + |Render(a.bound.value)| == i + |Render(a)|
  {
    var keyword := Keyword(a.isExtends);
    assert Render(a) == "? " + (keyword + Render(a.bound.value));
    OccursConcat(s, i, "? ", keyword + Render(a.bound.value));
    OccursConcat(s, i + 2, keyword, Render(a.bound.value));
    assert s[i..i + 2][0] == s[i] && s[i..i + 2][1] == s[i + 1];
  }

  /** A written bounded wildcard, followed by a comma or `>`, is read by `parseWildcard` as itself. */
  lemma {:induction false} BoundedWildcardRead(a: JavaType, s: string, i: nat)
    requires a.JavaWildcardType? && a.bound.Some? && PrintableComponent(a.bound.value)
    requires Occurs(s, i, Render(a))
    requires i + |Render(a)| < |s| && (s[i + |Render(a)|] == ',' || s[i + |Render(a)|] == '>')
    ensures s[i] == '?'
    ensures Wildcard(s, i) == Success((i + |Render(a)|, a.isExtends, a.bound))
    decreases a, 2
  {
    var b := a.bound.value;
    var k := i + 2 + |Keyword(a.isExtends)|;
    var e := i + |Render(a)|;
    BoundedWildcardLayout(a, s, i);
    calc {
      Wildcard(s, i);
    == { WildcardKeyword(s, i, a.isExtends); }
      WildcardBound(s, k, a.isExtends);
    == { WrittenBoundRead(b, s, k, a.isExtends); }
      Success((e, a.isExtends, Some(b)));
    }
  }

  /** A written wildcard bound, followed by a comma or `>`, is read by the bound part of `parseWildcard`
      as itself. */
  lemma {:induction false} WrittenBoundRead(b: JavaType, s: string, k: nat, isExtends: bool)
    requires PrintableComponent(b)
    requires Occurs(s, k, Render(b))
    requires k + |Render(b)| < |s| && (s[k + |Render(b)|] == ',' || s[k + |Render(b)|] == '>')
    ensures WildcardBound(s, k, isExtends) == Success((k + |Render(b)|, isExtends, Some(b)))
    decreases b, 3
  {
    ComponentRead(b, s, k);
    BoundRead(s, k, isExtends, b, k + |Render(b)|);
  }

  /** A wildcard bound read from `k` to `e`, before a comma or `>`, is the whole bound. */
  lemma BoundRead(s: string, k: nat, isExtends: bool, b: JavaType, e: nat)
    requires k <= |s| && ClassifierOrArrayType(s, k) == Success((e, b))
    requires e < |s| && (s[e] == ',' || s[e] == '>')
    ensures WildcardBound(s, k, isExtends) == Success((e, isExtends, Some(b)))
  {
    assert Intersections(s, e) == Success(e);
  }

  /** A written type argument, followed by a comma or the closing `>`, is read back as itself. */
  lemma {:induction false} ArgumentRead(a: JavaType, s: string, i: nat, acc: seq<JavaType>)
    requires PrintableArgument(a)
    requires Occurs(s, i, Render(a))
    requires i + |Render(a)| < |s| && (s[i + |Render(a)|] == ',' || s[i + |Render(a)|] == '>')
    ensures ArgsLoop(s, i, acc) == ArgsLoop(s, i + |Render(a)|, acc + [a])
    decreases a, 3
  {
    if a.JavaWildcardType? {
      if a.bound.None? {
        assert Render(a) == "?";
        assert s[i] == '?';
      } else {
        BoundedWildcardRead(a, s, i);
      }
    } else {
      ComponentRead(a, s, i);
    }
  }

  /** The written arguments of `t` from the `k`-th, followed by `>`, are read back as themselves, and the
      loop ends just past the `>`. */
  lemma {:induction false} ArgumentsRead(t: JavaType, k: nat, s: string, i: nat, acc: seq<JavaType>)
    requires Printable(t) && k < |t.typeArguments|
    requires Occurs(s, i, RenderArguments(t, k))
    requires i + |RenderArguments(t, k)| < |s| && s[i + |RenderArguments(t, k)|] == '>'
    ensures ArgsLoop(s, i, acc) == Success((i + |RenderArguments(t, k)| + 1, acc + t.typeArguments[k..]))
    decreases t, 0, |t.typeArguments| - k, 1
  {
    if k + 1 == |t.typeArguments| {
      LastArgumentRead(t, k, s, i, acc);
    } else {
      var a := t.typeArguments[k];
      ArgumentsSplit(t, k, s, i);
      NextArgumentsRead(t, k, s, i, acc);
      assert acc + [a] + t.typeArguments[k + 1..] == acc + t.typeArguments[k..];
    }
  }

  /** Where more arguments follow, the `k`-th is read, then the comma, then the rest. */
  lemma {:induction false} NextArgumentsRead(t: JavaType, k: nat, s: string, i: nat, acc: seq<JavaType>)
    requires Printable(t) && k + 1 < |t.typeArguments| && PrintableArgument(t.typeArguments[k])
    requires Occurs(s, i, Render(t.typeArguments[k]))
    requires i + |Render(t.typeArguments[k])| < |s| && s[i + |Render(t.typeArguments[k])|] == ','
    requires Occurs(s, i + |Render(t.typeArguments[k])| + 1, RenderArguments(t, k + 1))
    requires i + |Render(t.typeArguments[k])| + 1 + |RenderArguments(t, k + 1)| < |s|
             && s[i + |Render(t.typeArguments[k])| + 1 + |RenderArguments(t, k + 1)|] == '>'
    ensures ArgsLoop(s, i, acc)
            == Success((i + |Render(t.typeArguments[k])| + 1 + |RenderArguments(t, k + 1)| + 1,
                        acc + [t.typeArguments[k]] + t.typeArguments[k + 1..]))
    decreases t, 0, |t.typeArguments| - k, 0
  {
    var a := t.typeArguments[k];
    ArgumentThenComma(a, s, i, acc);
    ArgumentsRead(t, k + 1, s, i + |Render(a)| + 1, acc + [a]);
  }

  /** The last written argument of `t`, followed by `>`, is read back as itself and ends the loop. */
  lemma {:induction false} LastArgumentRead(t: JavaType, k: nat, s: string, i: nat, acc: seq<JavaType>)
    requires Printable(t) && k + 1 == |t.typeArguments|
    requires Occurs(s, i, RenderArguments(t, k))
    requires i + |RenderArguments(t, k)| < |s| && s[i + |RenderArguments(t, k)|] == '>'
    ensures ArgsLoop(s, i, acc) == Success((i + |RenderArguments(t, k)| + 1, acc + t.typeArguments[k..]))
    decreases t, 0, |t.typeArguments| - k, 0
  {
    var a := t.typeArguments[k];
    assert PrintableArgument(a);
    assert RenderArguments(t, k) == Render(a);
    ArgumentRead(a, s, i, acc);
    CloseStep(s, i + |Render(a)|, acc + [a]);
    assert t.typeArguments[k..] == [a];
  }

  /** Where more arguments follow, the written arguments of `t` from the `k`-th are the `k`-th, a comma, and
      the rest. */
  lemma ArgumentsSplit(t: JavaType, k: nat, s: string, i: nat)
    requires Printable(t) && k + 1 < |t.typeArguments|
    requires Occurs(s, i, RenderArguments(t, k))
    ensures PrintableArgument(t.typeArguments[k])
    ensures Occurs(s, i, Render(t.typeArguments[k]))
    ensures i + |Render(t.typeArguments[k])| < |s| && s[i + |Render(t.typeArguments[k])|] == ','
    ensures Occurs(s, i + |Render(t.typeArguments[k])| + 1, RenderArguments(t, k + 1))
    ensures i + |Render(t.typeArguments[k])| + 1 + |RenderArguments(t, k + 1)| == i + |RenderArguments(t, k)|
  {
    var a := t.typeArguments[k];
    var rest := RenderArguments(t, k + 1);
    var j := i + |Render(a)|;
    assert RenderArguments(t, k) == Render(a) + ("," + rest);
    OccursConcat(s, i, Render(a), "," + rest);
    OccursConcat(s, j, ",", rest);
    assert s[j..j + 1][0] == s[j];
  }

  /** A written type argument followed by a comma is read back as itself, and the loop goes on after the
      comma. */
  lemma {:induction false} ArgumentThenComma(a: JavaType, s: string, i: nat, acc: seq<JavaType>)
    requires PrintableArgument(a)
    requires Occurs(s, i, Render(a))
    requires i + |Render(a)| < |s| && s[i + |Render(a)|] == ','
    ensures ArgsLoop(s, i, acc) == ArgsLoop(s, i + |Render(a)| + 1, acc + [a])
    decreases a, 4
  {
    ArgumentRead(a, s, i, acc);
    CommaStep(s, i + |Render(a)|, acc + [a]);
  }

  /** A comma between arguments is skipped. */
  lemma CommaStep(s: string, j: nat, acc: seq<JavaType>)
    requires j < |s| && s[j] == ','
    ensures ArgsLoop(s, j, acc) == ArgsLoop(s, j + 1, acc)
  {
  }

  /** The closing `>` ends the argument list just past it. */
  lemma CloseStep(s: string, j: nat, acc: seq<JavaType>)
    requires j < |s| && s[j] == '>'
    ensures ArgsLoop(s, j, acc) == Success((j + 1, acc))
  {
  }

  /** Reading back the canonical text of a written classifier type gives the type itself; its canonical
      text is its qualified name alone. */
  lemma RoundTrip(t: JavaType)
    requires Printable(t)
    ensures ClassifierTypeByCanonicalText(Render(t)) == Success(t)
    ensures CanonicalTextOf(ClassifierTypeByCanonicalText(Render(t)).value) == t.classifier.qName
  {
    var s := Render(t);
    assert Occurs(s, 0, s) by {
      assert s[0..|s|] == s;
    }
    ClassifierInfo(t, s, 0);
    if t.typeArguments == [] { NoGroups(); } else { OneGroup(t.typeArguments); }
  }

  /** The canonical text of an array type is rejected. */
  lemma ArrayRejected(c: JavaType)
    requires Printable(c)
    ensures ClassifierTypeByCanonicalText(Render(JavaArrayType(c))) == Failure(AssertionError(ARRAY_MESSAGE))
  {
    var s := Render(JavaArrayType(c));
    assert Occurs(s, 0, s) by {
      assert s[0..|s|] == s;
    }
    ComponentRead(JavaArrayType(c), s, 0);
  }

  /** Text left after a written classifier type is rejected, and the message quotes it. */
  lemma TrailingTextRejected(t: JavaType, tail: string)
    requires Printable(t)
    requires tail != [] && IsStop(tail[0])
    ensures ClassifierTypeByCanonicalText(Render(t) + tail) == Failure(AssertionError(SYMBOLS_LEFT + tail))
  {
    var s := Render(t) + tail;
    assert Occurs(s, 0, Render(t)) by {
      assert s[0..|Render(t)|] == Render(t);
    }
    assert s[|Render(t)|] == tail[0];
    ComponentRead(t, s, 0);
    assert s[|Render(t)|..] == tail;
  }

  /** A type written with arguments is never raw; a bare name is raw exactly when it names a class with
      type parameters. */
  lemma RawOnlyWithoutArguments(t: JavaType, findClassifier: string -> Option<Classifier>)
    requires Printable(t)
    ensures var r := ClassifierTypeByCanonicalText(Render(t));
            r.Success? && (IsRaw(r.value, findClassifier) <==>
              t.typeArguments == []
              && findClassifier(t.classifier.qName).Some?
              && findClassifier(t.classifier.qName).value.ClassClassifier?
              && findClassifier(t.classifier.qName).value.javaClass.typeParameterNames != [])
  {
    RoundTrip(t);
  }
  /** The canonical text of a type read from canonical text is the text without its arguments: a prefix
      of it, and all of it exactly when the type has no arguments. */
  lemma CanonicalTextWithoutArguments(t: JavaType)
    requires Printable(t)
    ensures var r := ClassifierTypeByCanonicalText(Render(t));
            r.Success? && r.value.JavaClassifierType? && r.value.classifier.ByFqName?
            && StartsWith(Render(t), CanonicalTextOf(r.value))
            && (CanonicalTextOf(r.value) == Render(t) <==> t.typeArguments == [])
  {
    RoundTrip(t);
    NamePrefix(t);
  }

  /** A printable classifier type is written as its name, followed by its arguments when it has any. */
  lemma NamePrefix(t: JavaType)
    requires Printable(t)
    ensures StartsWith(Render(t), t.classifier.qName)
    ensures Render(t) == t.classifier.qName <==> t.typeArguments == []
  {
    var n := t.classifier.qName;
    if t.typeArguments != [] {
      var rest := "<" + RenderArguments(t, 0) + ">";
      assert Render(t) == n + rest;
      assert Render(t)[..|n|] == n;
    }
  }


  // ---------------------------------------------------------------------------------------------
  // The argument loop as the source writes it

  /** The state of the argument loop: still scanning at a position with the arguments so far, or
      returned with its outcome. */
  datatype ArgsState = Scanning(pos: nat, result: seq<JavaType>) | Returned(outcome: Result<(nat, seq<JavaType>), Failure>)

  predicate ArgsInBounds(s: string, st: ArgsState) {
    st.Scanning? ==> st.pos <= |s|
  }

  /** One iteration of the `parseArgs` loop as written: whatever type is read at a character that is
      neither a wildcard, a separator nor `>` is added, and the index moves to where it ends. */
  function AsWrittenArgsStep(s: string, st: ArgsState): (st': ArgsState)
    requires ArgsInBounds(s, st)
    ensures ArgsInBounds(s, st')
  {
    match st
    case Returned(_) => st
    case Scanning(i, acc) =>
      if i == |s| then Returned(Failure(StringIndexOutOfBoundsException))
      else if s[i] == '?' then
        match Wildcard(s, i)
        case Failure(e) => Returned(Failure(e))
        case Success((j, isExtends, bound)) => Scanning(j, acc + [JavaWildcardType(bound, isExtends)])
      else if s[i] == '>' then Returned(Success((i + 1, acc)))
      else if s[i] == ' ' || s[i] == ',' then Scanning(i + 1, acc)
      else
        match ClassifierOrArrayType(s, i)
        case Failure(e) => Returned(Failure(e))
        case Success((j, t)) => Scanning(j, acc + [t])
  }

  /** The state after `n` iterations of the loop as written. */
  function AsWrittenArgsIterate(s: string, st: ArgsState, n: nat): (st': ArgsState)
    requires ArgsInBounds(s, st)
    ensures ArgsInBounds(s, st')
    decreases n
  {
    if n == 0 then st else AsWrittenArgsIterate(s, AsWrittenArgsStep(s, st), n - 1)
  }

  /** At an `&`, the loop as written reads an empty classifier type without moving, and so adds one more
      such type on every iteration and never leaves that position. */
  lemma {:induction false} AsWrittenArgsStall(s: string, i: nat, acc: seq<JavaType>, n: nat)
    requires i < |s| && s[i] == '&'
    ensures AsWrittenArgsIterate(s, Scanning(i, acc), n).Scanning?
    ensures AsWrittenArgsIterate(s, Scanning(i, acc), n).pos == i
    ensures |AsWrittenArgsIterate(s, Scanning(i, acc), n).result| == |acc| + n
    decreases n
  {
    if n > 0 {
      NoGroups();
      assert InfoLoop(s, i, [], []) == Success(TypeInfo([], [], false, i));
      assert ClassifierOrArrayType(s, i) == Success((i, JavaClassifierType(ByFqName([]), [])));
      AsWrittenArgsStall(s, i, acc + [JavaClassifierType(ByFqName([]), [])], n - 1);
    }
  }

  /** `A<B&C>`: the loop as written reads `B` and is then stuck at the `&` at index 3 for ever; the
      corrected loop rejects the text there. */
  lemma IntersectionArgument(n: nat)
    ensures ClassifierOrArrayType("A<B&C>", 2) == Success((3, JavaClassifierType(ByFqName("B"), [])))
    ensures var st := AsWrittenArgsIterate("A<B&C>", Scanning(3, [JavaClassifierType(ByFqName("B"), [])]), n);
            st.Scanning? && st.pos == 3
    ensures ClassifierTypeByCanonicalText("A<B&C>") == Failure(IllegalStateException(UNEXPECTED_ARGUMENT + "&C>"))
  {
    var s := "A<B&C>";
    NoGroups();
    NameRun(s, 2, "B", [], []);
    assert [] + "B" == "B";
    AsWrittenArgsStall(s, 3, [JavaClassifierType(ByFqName("B"), [])], n);
    NameRun(s, 0, "A", [], []);
    assert s[3..] == "&C>";
  }

  /** Wherever the loop as written returns, the corrected loop returns the same. */
  lemma {:induction false} CorrectedArgsAgree(s: string, i: nat, acc: seq<JavaType>, n: nat)
    requires i <= |s|
    requires AsWrittenArgsIterate(s, Scanning(i, acc), n).Returned?
    ensures ArgsLoop(s, i, acc) == AsWrittenArgsIterate(s, Scanning(i, acc), n).outcome
    decreases n
  {
    if n == 0 {
    } else if i == |s| {
      ReturnedStays(s, Returned(Failure(StringIndexOutOfBoundsException)), n - 1);
    } else if s[i] == '?' {
      match Wildcard(s, i)
      case Failure(e) =>
        ReturnedStays(s, Returned(Failure(e)), n - 1);
      case Success((j, isExtends, bound)) =>
        CorrectedArgsAgree(s, j, acc + [JavaWildcardType(bound, isExtends)], n - 1);
    } else if s[i] == '>' {
      ReturnedStays(s, Returned(Success((i + 1, acc))), n - 1);
    } else if s[i] == ' ' || s[i] == ',' {
      CorrectedArgsAgree(s, i + 1, acc, n - 1);
    } else {
      match ClassifierOrArrayType(s, i)
      case Failure(e) =>
        ReturnedStays(s, Returned(Failure(e)), n - 1);
      case Success((j, t)) =>
        if j == i {
          assert s[i] == '&';
          AsWrittenArgsStall(s, i, acc, n);
          assert false;
        } else {
          CorrectedArgsAgree(s, j, acc + [t], n - 1);
        }
    }
  }

  lemma {:induction false} ReturnedStays(s: string, st: ArgsState, n: nat)
    requires st.Returned?
    ensures AsWrittenArgsIterate(s, st, n) == st
    decreases n
  {
    if n > 0 {
      ReturnedStays(s, st, n - 1);
    }
  }

  // ---------------------------------------------------------------------------------------------
  // Examples

  /** The two argument groups of `A<B>.C<D>`. */
  lemma {:induction false} InnerClassGroups(s: string)
    requires s == "A<B>.C<D>"
    ensures TypeArguments(s, 1) == Success((4, [JavaClassifierType(ByFqName("B"), [])]))
    ensures TypeArguments(s, 6) == Success((9, [JavaClassifierType(ByFqName("D"), [])]))
  {
    var outer := JavaClassifierType(ByFqName("A"), [JavaClassifierType(ByFqName("B"), [])]);
    var inner := JavaClassifierType(ByFqName("C"), [JavaClassifierType(ByFqName("D"), [])]);
    assert TypeArguments(s, 1) == Success((4, [JavaClassifierType(ByFqName("B"), [])])) by {
      assert RenderArguments(outer, 0) == "B";
      assert Occurs(s, 1, "<B>");
      GroupRead(outer, s, 1);
    }
    assert TypeArguments(s, 6) == Success((9, [JavaClassifierType(ByFqName("D"), [])])) by {
      assert RenderArguments(inner, 0) == "D";
      assert Occurs(s, 6, "<D>");
      GroupRead(inner, s, 6);
    }
  }

  /** `A<B>.C<D>`, the text of an inner class of a generic class: the name runs on across the argument
      group, and the innermost arguments come first. */
  lemma {:induction false} InnerClassOfGeneric(s: string)
    requires s == "A<B>.C<D>"
    ensures ClassifierTypeByCanonicalText(s)
            == Success(JavaClassifierType(ByFqName("A.C"), [JavaClassifierType(ByFqName("D"), []),
                                                            JavaClassifierType(ByFqName("B"), [])]))
  {
    var b := JavaClassifierType(ByFqName("B"), []);
    var d := JavaClassifierType(ByFqName("D"), []);
    calc {
      InfoLoop(s, 0, [], []);
    == { NameRun(s, 0, "A", [], []); assert [] + "A" == "A"; }
      InfoLoop(s, 1, [], "A");
    == { InnerClassGroups(s); GroupStep(s, 1, [], "A"); assert [] + [[b]] == [[b]]; }
      InfoLoop(s, 4, [[b]], "A");
    == { NameRun(s, 4, ".C", [[b]], "A"); assert "A" + ".C" == "A.C"; }
      InfoLoop(s, 6, [[b]], "A.C");
    == { InnerClassGroups(s); GroupStep(s, 6, [[b]], "A.C"); assert [[b]] + [[d]] == [[b], [d]]; }
      InfoLoop(s, 9, [[b], [d]], "A.C");
    == { ReversedFlattenSnoc([[b]], [d]); OneGroup([b]); assert [d] + [b] == [d, b]; }
      Success(TypeInfo("A.C", [d, b], false, 9));
    }
  }

  /** `? foo` is neither an `extends` nor a `super` wildcard. */
  lemma UnexpectedWildcard()
    ensures ClassifierTypeByCanonicalText("A<? foo>") == Failure(IllegalStateException(UNEXPECTED_WILDCARD + "foo>"))
  {
    var s := "A<? foo>";
    assert s[4..] == "foo>";
    assert !StartsWith(s[4..], EXTENDS) && !StartsWith(s[4..], SUPER);
    NameRun(s, 0, "A", [], []);
  }
}
