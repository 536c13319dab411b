/**
 * The JavaPoet values the generator builds: class names, type names and
 * their source text, and the method, parameter and type specifications that
 * end up in generated files.
 */
module Poet {
  import opened Wrappers
  import opened Strings
  import opened Reflection

  /** A `ClassName`: package, enclosing simple names (outermost first) and the simple name. */
  datatype ClassName = ClassName(packageName: string, enclosing: seq<string>, simpleName: string)
  {
    /** `canonicalName()`: package and simple names joined with dots. */
    function CanonicalName(): string
    {
      var names := Join(enclosing + [simpleName], '.');
      if packageName == "" then names else packageName + "." + names
    }
  }

  const ObjectName: ClassName := ClassName("java.lang", [], "Object")

  /** A JavaPoet `TypeName`. */
  datatype TypeName =
    | Named(cls: ClassName)
    | PrimitiveName(keyword: string)   // the eight primitives and void
    | ParameterizedName(rawType: ClassName, typeArguments: seq<TypeName>)
    | WildcardName(upperBound: TypeName, lowerBound: Option<TypeName>)
    | VariableName(name: string, bounds: seq<TypeName>)
    | ArrayName(componentType: TypeName)

  /** `toString()`: the source text JavaPoet emits for a type name. */
  function ToString(t: TypeName): string
    decreases t, 1
  {
    match t
    case Named(c) => c.CanonicalName()
    case PrimitiveName(k) => k
    case ParameterizedName(raw, args) => raw.CanonicalName() + "<" + JoinTypes(args) + ">"
    case WildcardName(upper, lower) =>
      if lower.Some? then "? super " + ToString(lower.value)
      else if upper == Named(ObjectName) then "?"
      else "? extends " + ToString(upper)
    case VariableName(n, _) => n
    case ArrayName(c) => ToString(c) + "[]"
  }

  /** Type names separated by `", "`, as inside `<...>`. */
  function JoinTypes(ts: seq<TypeName>): string
    decreases ts, 0
  {
    if |ts| == 0 then ""
    else if |ts| == 1 then ToString(ts[0])
    else ToString(ts[0]) + ", " + JoinTypes(ts[1..])
  }

  /** `TypeName.get(Class)`: keywords for primitives, arrays of their component, and class names. */
  function Get(c: ClassRef): (r: TypeName)
    ensures r.PrimitiveName? <==> c.PrimitiveClass?
    ensures r.ArrayName? <==> c.ArrayClass?
    ensures c.DeclaredClass? ==> r == Named(ClassName(c.packageName, c.enclosing, c.simpleName))
  {
    match c
    case PrimitiveClass(k) => PrimitiveName(k)
    case ArrayClass(e) => ArrayName(Get(e))
    case DeclaredClass(p, e, s) => Named(ClassName(p, e, s))
  }

  /** `Character.isLowerCase` / `isUpperCase` of the first character, for ASCII letters. */
  predicate LowerStart(s: string)
  {
    |s| > 0 && 'a' <= s[0] <= 'z'
  }

  predicate UpperStart(s: string)
  {
    |s| > 0 && 'A' <= s[0] <= 'Z'
  }

  /** How many leading dot-separated parts start in lower case: the guessed package. */
  function PackageParts(parts: seq<string>): (k: nat)
    ensures k <= |parts|
    ensures forall i | 0 <= i < k :: LowerStart(parts[i])
    ensures k < |parts| ==> !LowerStart(parts[k])
  {
    if |parts| == 0 || !LowerStart(parts[0]) then 0 else 1 + PackageParts(parts[1..])
  }

  /**
   * `ClassName.bestGuess(s)`: the leading lower-case parts are the package,
   * and every remaining part must start with an upper-case letter; the last
   * is the simple name and the others enclose it.
   */
  function BestGuess(s: string): (r: Result<ClassName, Failure>)
    ensures r.Err? ==> r.error == NoGuess(s)
    ensures r.Ok? ==> UpperStart(r.value.simpleName) && '.' !in r.value.simpleName
    ensures r.Ok? ==> forall i | 0 <= i < |r.value.enclosing| :: UpperStart(r.value.enclosing[i])
  {
    var parts := Split(s, '.');
    var k := PackageParts(parts);
    if k == |parts| || exists i | k <= i < |parts| :: !UpperStart(parts[i]) then Err(NoGuess(s))
    else
      var names := parts[k..];
      Ok(ClassName(Join(parts[..k], '.'), names[..|names| - 1], names[|names| - 1]))
  }

  /** A guessed class name spells out the text it was guessed from. */
  lemma BestGuessCanonical(s: string)
    requires BestGuess(s).Ok?
    ensures BestGuess(s).value.CanonicalName() == s
  {
    var parts := Split(s, '.');
    var k := PackageParts(parts);
    var names := parts[k..];
    var c := BestGuess(s).value;
    assert c.enclosing + [c.simpleName] == names;
    JoinSplit(s, '.');
    if k > 0 {
      JoinAt(parts, k, '.');
      assert LowerStart(parts[0]);
      assert |Join(parts[..k], '.')| > 0 by { JoinNonEmpty(parts[..k], '.'); }
    } else {
      assert names == parts;
    }
  }

  /** A join whose first part is non-empty is non-empty. */
  lemma JoinNonEmpty(parts: seq<string>, sep: char)
    requires |parts| > 0 && |parts[0]| > 0
    ensures |Join(parts, sep)| > 0
  {
  }

  /** The argument text handed to `MirrorHandler.handle`: `", " + name` for each name, in order. */
  function ArgumentList(names: seq<string>): string
  {
    if names == [] then "" else ArgumentList(names[..|names| - 1]) + ", " + names[|names| - 1]
  }

  /** The argument text of a concatenation is the concatenation of the argument texts. */
  lemma {:induction false} ArgumentListAppend(a: seq<string>, b: seq<string>)
    ensures ArgumentList(a + b) == ArgumentList(a) + ArgumentList(b)
    decreases |b|
  {
    if b != [] {
      ArgumentListAppend(a, b[..|b| - 1]);
      assert (a + b)[..|a + b| - 1] == a + b[..|b| - 1];
    } else {
      assert a + b == a;
    }
  }

  datatype Modifier = Public | Static | Abstract | Default

  const MirrorHandler: ClassName := ClassName("org.mockbukkit.integrationtester.testclient", [], "MirrorHandler")

  /** `[return ]$T.handle($S, $L)` with the handler, the method name and the argument text. */
  datatype Statement = Delegate(returnsValue: bool, handler: ClassName, methodName: string, arguments: string)

  datatype ParameterSpec = ParameterSpec(paramType: TypeName, name: string, annotations: seq<ClassName>)

  datatype MethodSpec = MethodSpec(
    name: string,
    annotations: seq<ClassName>,
    parameters: seq<ParameterSpec>,
    returnType: TypeName,
    typeVariables: seq<TypeName>,
    modifiers: set<Modifier>,
    statement: Option<Statement>)

  datatype TypeSpec = TypeSpec(
    kind: ClassKind,
    name: string,
    modifiers: set<Modifier>,
    methods: seq<MethodSpec>,
    superinterfaces: seq<TypeName>,
    superclass: Option<TypeName>)

  /** A file `JavaFile.writeTo` emits: the package and its one top-level type. */
  datatype JavaFile = JavaFile(packageName: string, typeSpec: TypeSpec)
}
