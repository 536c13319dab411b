/**
 * `ParameterData`: a method parameter as the generator records it (name,
 * rendered type, annotation type names), with an identity that looks only at
 * the raw type, the Java string hash behind its `hashCode`, and its
 * conversion to a JavaPoet `ParameterSpec`.
 */
module Parameters {
  import opened Wrappers
  import opened Strings
  import opened CoreValues
  import opened Reflection
  import opened Poet
  import opened TypeUtil

  datatype ParameterData = ParameterData(name: string, paramType: TypeName, annotations: seq<string>)

  /**
   * `rawTypeString`: the raw type's canonical name for a parameterized type,
   * the type's source text otherwise; in both cases the text the type's
   * source text starts with.
   */
  function RawTypeString(p: ParameterData): (r: string)
    ensures StartsWith(ToString(p.paramType), r)
    ensures !p.paramType.ParameterizedName? ==> r == ToString(p.paramType)
    ensures p.paramType.ParameterizedName? ==> |r| < |ToString(p.paramType)| && ToString(p.paramType)[|r|] == '<'
  {
    match p.paramType
    case ParameterizedName(raw, _) => raw.CanonicalName()
    case _ => ToString(p.paramType)
  }

  /** `equals`: two parameters are the same when their raw type strings are. */
  predicate Equals(p: ParameterData, q: ParameterData)
  {
    RawTypeString(p) == RawTypeString(q)
  }

  /**
   * Names, annotations and type arguments play no part in identity: a raw
   * `List` parameter, a `List<String>` one and a `List<Integer>` one are the
   * same parameter.
   */
  lemma {:induction false} TypeArgumentsIgnored(raw: ClassName, args1: seq<TypeName>, args2: seq<TypeName>,
                                                n1: string, n2: string, a1: seq<string>, a2: seq<string>)
    ensures Equals(ParameterData(n1, ParameterizedName(raw, args1), a1), ParameterData(n2, ParameterizedName(raw, args2), a2))
    ensures Equals(ParameterData(n1, ParameterizedName(raw, args1), a1), ParameterData(n2, Named(raw), a2))
  {
    assert RawTypeString(ParameterData(n2, Named(raw), a2)) == raw.CanonicalName();
  }

  /** Parameters whose raw types have different canonical names are different. */
  lemma DifferentRawTypes(p: ParameterData, q: ParameterData)
    requires p.paramType.ParameterizedName? && q.paramType.ParameterizedName?
    requires p.paramType.rawType.CanonicalName() != q.paramType.rawType.CanonicalName()
    ensures !Equals(p, q)
  {
  }

  // ---------------------------------------------------------------------
  // Hashing
  // ---------------------------------------------------------------------

  /** The exact value Java's string hash stands for: `s[0]*31^(n-1) + ... + s[n-1]`. */
  function Polynomial(s: string): int
  {
    if s == [] then 0 else 31 * Polynomial(s[..|s| - 1]) + s[|s| - 1] as int
  }

  /** `String.hashCode`: `h = 31 * h + c` over the characters, in 32-bit arithmetic. */
  function StringHash(s: string): (h: i32)
    ensures h == ToI32(Polynomial(s))
  {
    if s == [] then 0
    else
      var prior := StringHash(s[..|s| - 1]);
      WrapIsModular(Polynomial(s[..|s| - 1]), 31, s[|s| - 1] as int);
      ToI32(31 * prior as int + s[|s| - 1] as int)
  }

  /** Wrapping before a multiply-add gives what wrapping after it gives. */
  lemma WrapIsModular(x: int, m: int, c: int)
    ensures ToI32(m * ToI32(x) as int + c) == ToI32(m * x + c)
  {
    var q := (x + 0x8000_0000) / 0x1_0000_0000;
    assert ToI32(x) as int == x - 0x1_0000_0000 * q;
    assert m * ToI32(x) as int + c == (m * x + c) + 0x1_0000_0000 * (-m * q);
    ShiftByModulus(m * x + c, -m * q);
  }

  /** Adding a multiple of 2^32 does not change the wrapped value. */
  lemma ShiftByModulus(n: int, k: int)
    ensures ToI32(n + 0x1_0000_0000 * k) == ToI32(n)
  {
    var a := n + 0x8000_0000;
    var r := a % 0x1_0000_0000;
    assert a + 0x1_0000_0000 * k == 0x1_0000_0000 * (a / 0x1_0000_0000 + k) + r;
    ModOfDecomposition(a + 0x1_0000_0000 * k, a / 0x1_0000_0000 + k, r);
  }

  /** `n % 2^32` is the remainder of any decomposition `n == 2^32 * q + r` with `0 <= r < 2^32`. */
  lemma ModOfDecomposition(n: int, q: int, r: int)
    requires 0 <= r < 0x1_0000_0000 && n == 0x1_0000_0000 * q + r
    ensures n % 0x1_0000_0000 == r
  {
    var q' := n / 0x1_0000_0000;
    var r' := n % 0x1_0000_0000;
    assert 0x1_0000_0000 * (q - q') == r' - r;
  }

  /** `"ab".hashCode()` is `97 * 31 + 98`. */
  lemma TwoCharacterHash()
    ensures StringHash("ab") == 3105
  {
    assert "ab"[..1] == "a";
    assert "a"[..0] == "";
  }

  /** `hashCode`: the hash of the raw type string. */
  function HashCode(p: ParameterData): (h: i32)
    ensures h == ToI32(Polynomial(RawTypeString(p)))
  {
    StringHash(RawTypeString(p))
  }

  /** Equal parameters hash alike. */
  lemma HashConsistent(p: ParameterData, q: ParameterData)
    requires Equals(p, q)
    ensures HashCode(p) == HashCode(q)
  {
  }

  // ---------------------------------------------------------------------
  // Building and emitting
  // ---------------------------------------------------------------------

  /** One iteration of `from`: the parameter's name, its rendered generic type and its annotation names. */
  function ParameterFrom(p: JParameter, names: ClassNames, redefinitions: map<string, string>, w: World)
    : (r: Result<ParameterData, Failure>)
    ensures r.Ok? <==> GetTypeName(p.genericType, redefinitions, names, w).Ok?
    ensures r.Ok? ==> r.value.name == p.name
  {
    var t :- GetTypeName(p.genericType, redefinitions, names, w);
    Ok(ParameterData(p.name, t, AnnotationTypeNames(p.annotations, names, w)))
  }

  /**
   * `from`: one entry per parameter, in declaration order, each with that
   * parameter's name, its generic type rendered under the redefinitions and
   * its annotation names; the first type that cannot be rendered fails the
   * whole.
   */
  function ParametersFrom(ps: seq<JParameter>, names: ClassNames, redefinitions: map<string, string>, w: World)
    : (r: Result<seq<ParameterData>, Failure>)
    ensures r.Ok? <==> forall i | 0 <= i < |ps| :: GetTypeName(ps[i].genericType, redefinitions, names, w).Ok?
    ensures r.Ok? ==> |r.value| == |ps|
    ensures r.Ok? ==> forall i | 0 <= i < |ps| ::
      && r.value[i].name == ps[i].name
      && GetTypeName(ps[i].genericType, redefinitions, names, w) == Ok(r.value[i].paramType)
      && r.value[i].annotations == AnnotationTypeNames(ps[i].annotations, names, w)
  {
    if ps == [] then Ok([])
    else
      var prior :- ParametersFrom(ps[..|ps| - 1], names, redefinitions, w);
      var last :- ParameterFrom(ps[|ps| - 1], names, redefinitions, w);
      assert forall i | 0 <= i < |ps| - 1 :: ps[..|ps| - 1][i] == ps[i];
      Ok(prior + [last])
  }

  /** `ClassName.bestGuess` of each name, in order; the first name that is not a class name fails. */
  function GuessAll(texts: seq<string>): (r: Result<seq<ClassName>, Failure>)
    ensures r.Ok? <==> forall i | 0 <= i < |texts| :: BestGuess(texts[i]).Ok?
    ensures r.Ok? ==> |r.value| == |texts| && forall i | 0 <= i < |texts| :: BestGuess(texts[i]) == Ok(r.value[i])
    ensures r.Err? ==> exists i | 0 <= i < |texts| :: r.error == NoGuess(texts[i])
  {
    if texts == [] then Ok([])
    else
      var prior :- GuessAll(texts[..|texts| - 1]);
      var last :- BestGuess(texts[|texts| - 1]);
      Ok(prior + [last])
  }

  /** Every guessed annotation spells out the name it was guessed from. */
  lemma GuessAllCanonical(texts: seq<string>)
    requires GuessAll(texts).Ok?
    ensures forall i | 0 <= i < |texts| :: GuessAll(texts).value[i].CanonicalName() == texts[i]
  {
    forall i | 0 <= i < |texts|
      ensures GuessAll(texts).value[i].CanonicalName() == texts[i]
    {
      BestGuessCanonical(texts[i]);
    }
  }

  /** `toParameterSpec`: the stored type and name, and one annotation per stored annotation name, in order. */
  function ToParameterSpec(p: ParameterData): (r: Result<ParameterSpec, Failure>)
    ensures r.Ok? <==> GuessAll(p.annotations).Ok?
    ensures r.Ok? ==> r.value.paramType == p.paramType && r.value.name == p.name
    ensures r.Ok? ==> |r.value.annotations| == |p.annotations|
    ensures r.Ok? ==> forall i | 0 <= i < |p.annotations| :: r.value.annotations[i].CanonicalName() == p.annotations[i]
  {
    var annotations :- GuessAll(p.annotations);
    GuessAllCanonical(p.annotations);
    Ok(ParameterSpec(p.paramType, p.name, annotations))
  }
}
