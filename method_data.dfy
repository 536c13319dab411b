/**
 * `MethodData`: a method as the generator records it, with an identity made
 * of its name and its parameters' raw types, Guava's `Objects.hashCode`
 * over those, the `precedes` test, and the JavaPoet `MethodSpec` it emits:
 * the modifiers and the delegation to `MirrorHandler.handle`.
 */
module Methods {
  import opened Wrappers
  import opened Strings
  import opened CoreValues
  import opened Reflection
  import opened Poet
  import opened TypeUtil
  import opened Parameters

  datatype MethodData = MethodData(
    methodName: string,
    parameterData: seq<ParameterData>,
    returnType: TypeName,
    annotations: seq<string>,
    generics: seq<TypeName>,
    isStatic: bool,
    isAbstract: bool,
    isDefault: bool)
  {
    /**
     * `precedes(other)`: true when `other` returns a plain class name;
     * otherwise false as soon as one of its parameters has a plain class
     * name as type. The receiver plays no part.
     */
    predicate Precedes(other: MethodData)
    {
      other.returnType.Named? || NoClassParameter(other.parameterData)
    }
  }

  /** The early-return scan of `precedes`: no parameter type is a plain `ClassName`. */
  predicate NoClassParameter(ps: seq<ParameterData>)
  {
    if ps == [] then true
    else if ps[0].paramType.Named? then false
    else NoClassParameter(ps[1..])
  }

  /** The scan finds a class-named parameter iff there is one. */
  lemma {:induction false} NoClassParameterMeans(ps: seq<ParameterData>)
    ensures NoClassParameter(ps) <==> forall i | 0 <= i < |ps| :: !ps[i].paramType.Named?
  {
    if ps != [] {
      NoClassParameterMeans(ps[1..]);
      assert forall i | 1 <= i < |ps| :: ps[i] == ps[1..][i - 1];
    }
  }

  /**
   * `precedes` depends on its argument only: it holds iff the argument
   * returns a plain class name or none of its parameters has one as type.
   */
  lemma PrecedesMeans(m: MethodData, other: MethodData, anyone: MethodData)
    ensures m.Precedes(other) <==> other.returnType.Named? || forall i | 0 <= i < |other.parameterData| :: !other.parameterData[i].paramType.Named?
    ensures m.Precedes(other) == anyone.Precedes(other)
  {
    NoClassParameterMeans(other.parameterData);
  }

  // ---------------------------------------------------------------------
  // Identity and hashing
  // ---------------------------------------------------------------------

  /** `Arrays.equals` on parameter arrays: same length, pairwise `ParameterData.equals`. */
  predicate ParametersEqual(ps: seq<ParameterData>, qs: seq<ParameterData>)
  {
    if ps == [] || qs == [] then ps == [] && qs == []
    else Parameters.Equals(ps[0], qs[0]) && ParametersEqual(ps[1..], qs[1..])
  }

  lemma {:induction false} ParametersEqualMeans(ps: seq<ParameterData>, qs: seq<ParameterData>)
    ensures ParametersEqual(ps, qs) <==> |ps| == |qs| && forall i | 0 <= i < |ps| :: Parameters.Equals(ps[i], qs[i])
  {
    if ps != [] && qs != [] {
      ParametersEqualMeans(ps[1..], qs[1..]);
      assert forall i | 1 <= i < |ps| :: ps[i] == ps[1..][i - 1];
      assert forall i | 1 <= i < |qs| :: qs[i] == qs[1..][i - 1];
    }
  }

  /** `equals`: the same name and pairwise-equal parameters; return type, annotations, generics and flags are ignored. */
  predicate Equals(a: MethodData, b: MethodData)
  {
    a.methodName == b.methodName && ParametersEqual(a.parameterData, b.parameterData)
  }

  /** Two records that differ only outside the name and the parameters' raw types are equal. */
  lemma EqualsIgnoresTheRest(a: MethodData, b: MethodData)
    requires a.methodName == b.methodName && |a.parameterData| == |b.parameterData|
    requires forall i | 0 <= i < |a.parameterData| :: RawTypeString(a.parameterData[i]) == RawTypeString(b.parameterData[i])
    ensures Equals(a, b)
  {
    ParametersEqualMeans(a.parameterData, b.parameterData);
  }

  /** Methods with different names are never equal. */
  lemma DifferentNames(a: MethodData, b: MethodData)
    requires a.methodName != b.methodName
    ensures !Equals(a, b)
  {
  }

  /** `Arrays.hashCode` over element hashes: `r = 31 * r + h`, starting from 1, in 32-bit arithmetic. */
  function ArrayHash(hs: seq<i32>): i32
  {
    if hs == [] then 1 else ToI32(31 * ArrayHash(hs[..|hs| - 1]) as int + hs[|hs| - 1] as int)
  }

  function ParameterHashes(ps: seq<ParameterData>): (r: seq<i32>)
    ensures |r| == |ps| && forall i | 0 <= i < |ps| :: r[i] == Parameters.HashCode(ps[i])
  {
    seq(|ps|, i requires 0 <= i < |ps| => Parameters.HashCode(ps[i]))
  }

  /** `hashCode`: `Objects.hashCode(Objects.hashCode(parameterData), methodName)`. */
  function HashCode(m: MethodData): (h: i32)
    ensures h == ArrayHash([ArrayHash(ParameterHashes(m.parameterData)), StringHash(m.methodName)])
  {
    var parameters := ArrayHash(ParameterHashes(m.parameterData));
    var name := StringHash(m.methodName);
    PairHash(parameters, name);
    ToI32(31 * (31 + parameters as int) + name as int)
  }

  /** `Objects.hashCode(a, b)` is `31 * (31 + a) + b`, wrapped once. */
  lemma PairHash(a: i32, b: i32)
    ensures ArrayHash([a, b]) == ToI32(31 * (31 + a as int) + b as int)
  {
    assert [a, b][..1] == [a];
    assert [a][..0] == [];
    assert ArrayHash([a]) == ToI32(31 + a as int);
    WrapIsModular(31 + a as int, 31, b as int);
  }

  /** Equal methods hash alike: the hash reads only the name and the parameters' raw types. */
  lemma HashConsistent(a: MethodData, b: MethodData)
    requires Equals(a, b)
    ensures HashCode(a) == HashCode(b)
  {
    ParametersEqualMeans(a.parameterData, b.parameterData);
    var ha := ParameterHashes(a.parameterData);
    var hb := ParameterHashes(b.parameterData);
    forall i | 0 <= i < |ha|
      ensures ha[i] == hb[i]
    {
      Parameters.HashConsistent(a.parameterData[i], b.parameterData[i]);
    }
    assert ha == hb;
  }

  // ---------------------------------------------------------------------
  // Building
  // ---------------------------------------------------------------------

  /** The loop of `from` over the type parameters: each rendered with `getTypeVariableName`. */
  function TypeVariableNames(tps: seq<TypeParameter>, names: ClassNames, conversions: map<string, string>, w: World)
    : (r: Result<seq<TypeName>, Failure>)
    ensures r.Ok? <==> forall i | 0 <= i < |tps| :: GetTypeVariableName(tps[i], names, conversions, w).Ok?
    ensures r.Ok? ==> |r.value| == |tps|
    ensures r.Ok? ==> forall i | 0 <= i < |tps| :: GetTypeVariableName(tps[i], names, conversions, w) == Ok(r.value[i])
  {
    if tps == [] then Ok([])
    else
      assert forall i | 0 <= i < |tps| - 1 :: tps[..|tps| - 1][i] == tps[i];
      var prior :- TypeVariableNames(tps[..|tps| - 1], names, conversions, w);
      var last :- GetTypeVariableName(tps[|tps| - 1], names, conversions, w);
      Ok(prior + [last])
  }

  /**
   * `from(method, classNames, isAbstract, typeConversions)`: the type
   * variables, the parameters and the return type are rendered under the
   * conversions, in that order; the annotations are the method's copied
   * annotation names; the flags come from the method and the caller.
   */
  function From(m: JMethod, names: ClassNames, isAbstract: bool, conversions: map<string, string>, w: World)
    : (r: Result<MethodData, Failure>)
    ensures r.Ok? <==>
      && TypeVariableNames(m.typeParameters, names, conversions, w).Ok?
      && ParametersFrom(m.parameters, names, conversions, w).Ok?
      && GetTypeName(m.genericReturnType, conversions, names, w).Ok?
    ensures r.Ok? ==>
      && r.value.methodName == m.name
      && |r.value.parameterData| == |m.parameters|
      && (forall i | 0 <= i < |m.parameters| :: r.value.parameterData[i].name == m.parameters[i].name)
      && |r.value.generics| == |m.typeParameters|
      && GetTypeName(m.genericReturnType, conversions, names, w) == Ok(r.value.returnType)
      && r.value.annotations == AnnotationTypeNames(m.annotations, names, w)
      && r.value.isStatic == m.isStatic && r.value.isAbstract == isAbstract && r.value.isDefault == m.isDefault
  {
    var generics :- TypeVariableNames(m.typeParameters, names, conversions, w);
    var parameters :- ParametersFrom(m.parameters, names, conversions, w);
    var returnType :- GetTypeName(m.genericReturnType, conversions, names, w);
    Ok(MethodData(m.name, parameters, returnType, AnnotationTypeNames(m.annotations, names, w), generics,
                  m.isStatic, isAbstract, m.isDefault))
  }

  /**
   * Two reflected methods with the same name and the same generic parameter
   * types give equal records, whatever their parameter names, return types
   * and annotations.
   */
  lemma SameSignatureEqual(m1: JMethod, m2: JMethod, names: ClassNames, isAbstract: bool, conversions: map<string, string>, w: World)
    requires From(m1, names, isAbstract, conversions, w).Ok? && From(m2, names, isAbstract, conversions, w).Ok?
    requires m1.name == m2.name && |m1.parameters| == |m2.parameters|
    requires forall i | 0 <= i < |m1.parameters| :: m1.parameters[i].genericType == m2.parameters[i].genericType
    ensures Equals(From(m1, names, isAbstract, conversions, w).value, From(m2, names, isAbstract, conversions, w).value)
  {
    var a := From(m1, names, isAbstract, conversions, w).value;
    var b := From(m2, names, isAbstract, conversions, w).value;
    var pa := ParametersFrom(m1.parameters, names, conversions, w).value;
    var pb := ParametersFrom(m2.parameters, names, conversions, w).value;
    assert a.parameterData == pa && b.parameterData == pb;
    forall i | 0 <= i < |pa|
      ensures RawTypeString(pa[i]) == RawTypeString(pb[i])
    {
      assert pa[i].paramType == pb[i].paramType;
    }
    EqualsIgnoresTheRest(a, b);
  }

  // ---------------------------------------------------------------------
  // Emitting
  // ---------------------------------------------------------------------

  function ParameterNames(ps: seq<ParameterData>): (r: seq<string>)
    ensures |r| == |ps| && forall i | 0 <= i < |ps| :: r[i] == ps[i].name
  {
    seq(|ps|, i requires 0 <= i < |ps| => ps[i].name)
  }

  /** `generateParameterString`: `", " + name` for each parameter, in order; empty when there are none. */
  function GenerateParameterString(m: MethodData): (r: string)
    ensures m.parameterData == [] <==> r == ""
    ensures m.parameterData != [] ==> StartsWith(r, ", ")
  {
    var names := ParameterNames(m.parameterData);
    ArgumentListShape(names);
    ArgumentList(names)
  }

  /** An argument text is empty iff there are no names, and otherwise starts with `", "`. */
  lemma {:induction false} ArgumentListShape(names: seq<string>)
    ensures names == [] <==> ArgumentList(names) == ""
    ensures names != [] ==> StartsWith(ArgumentList(names), ", ")
    decreases |names|
  {
    if names != [] {
      var prefix := names[..|names| - 1];
      ArgumentListShape(prefix);
      if prefix == [] {
        assert ArgumentList(names) == ", " + names[0];
      } else {
        assert ArgumentList(names)[..2] == ArgumentList(prefix)[..2];
      }
    }
  }

  /** The parameter specs of `toMethodSpec`, in order. */
  function ParameterSpecs(ps: seq<ParameterData>): (r: Result<seq<ParameterSpec>, Failure>)
    ensures r.Ok? <==> forall i | 0 <= i < |ps| :: ToParameterSpec(ps[i]).Ok?
    ensures r.Ok? ==> |r.value| == |ps| && forall i | 0 <= i < |ps| :: ToParameterSpec(ps[i]) == Ok(r.value[i])
  {
    if ps == [] then Ok([])
    else
      assert forall i | 0 <= i < |ps| - 1 :: ps[..|ps| - 1][i] == ps[i];
      var prior :- ParameterSpecs(ps[..|ps| - 1]);
      var last :- ToParameterSpec(ps[|ps| - 1]);
      Ok(prior + [last])
  }

  /** The `$T.handle($S, $L)` delegation with `return ` exactly when the return type is not `void`. */
  function Delegation(m: MethodData, receiver: string): Statement
  {
    Delegate(ToString(m.returnType) != "void", MirrorHandler, m.methodName, receiver + GenerateParameterString(m))
  }

  /**
   * `toMethodSpec(className)`: a static method is public static and
   * delegates with `<className>.class`; an abstract, non-default one is
   * public abstract with no body; every other one is public and delegates
   * with `this`; a default method also carries `default`.
   */
  function ToMethodSpec(m: MethodData, className: string): (r: Result<MethodSpec, Failure>)
    ensures r.Ok? <==> GuessAll(m.annotations).Ok? && ParameterSpecs(m.parameterData).Ok?
    ensures r.Ok? ==>
      && r.value.name == m.methodName
      && r.value.returnType == m.returnType
      && r.value.typeVariables == m.generics
      && |r.value.parameters| == |m.parameterData|
      && |r.value.annotations| == |m.annotations|
    ensures r.Ok? ==>
      && Public in r.value.modifiers
      && (Static in r.value.modifiers <==> m.isStatic)
      && (Abstract in r.value.modifiers <==> !m.isStatic && m.isAbstract && !m.isDefault)
      && (Default in r.value.modifiers <==> m.isDefault)
    ensures r.Ok? ==> (r.value.statement.None? <==> Abstract in r.value.modifiers)
    ensures r.Ok? && r.value.statement.Some? ==>
      && r.value.statement.value.handler == MirrorHandler
      && r.value.statement.value.methodName == m.methodName
      && (r.value.statement.value.returnsValue <==> ToString(m.returnType) != "void")
    ensures r.Ok? && m.isStatic ==> r.value.statement == Some(Delegation(m, className + ".class"))
    ensures r.Ok? && !m.isStatic && r.value.statement.Some? ==> r.value.statement == Some(Delegation(m, "this"))
  {
    var annotations :- GuessAll(m.annotations);
    var parameters :- ParameterSpecs(m.parameterData);
    var chosen: (set<Modifier>, Option<Statement>) :=
      if m.isStatic then ({Public, Static}, Some(Delegation(m, className + ".class")))
      else if m.isAbstract && !m.isDefault then ({Public, Abstract}, None)
      else ({Public}, Some(Delegation(m, "this")));
    var modifiers := if m.isDefault then chosen.0 + {Default} else chosen.0;
    Ok(MethodSpec(m.methodName, annotations, parameters, m.returnType, m.generics, modifiers, chosen.1))
  }
}
