/**
 * `Util`: rendering reflected generic types as JavaPoet type names under a
 * map of type-variable redefinitions, and the walk over a class's generic
 * ancestors that records, for each ancestor, what its type variables stand
 * for in the class being mirrored.
 */
module TypeUtil {
  import opened Wrappers
  import opened Strings
  import opened Reflection
  import opened Poet

  /** The generator's `Map<Class<?>, ClassName>`: the mirror name of every scanned class. */
  type ClassNames = map<ClassRef, ClassName>

  /** The size of a type, counting each list of type arguments one more than its elements. */
  function TypeSize(t: Type): nat
  {
    match t
    case ClassType(_) => 1
    case ParameterizedType(_, args) => 1 + SizeAll(args)
    case WildcardType(upper, lower) => 2 + TypeSize(upper) + (if lower.Some? then TypeSize(lower.value) else 0)
    case TypeVariable(_) => 1
    case GenericArrayType(c) => 1 + TypeSize(c)
  }

  function SizeAll(ts: seq<Type>): nat
  {
    if ts == [] then 0 else 1 + TypeSize(ts[0]) + SizeAll(ts[1..])
  }

  lemma SizeOfOne(t: Type)
    ensures SizeAll([t]) == 1 + TypeSize(t)
  {
    assert [t][1..] == [];
  }

  /**
   * `fixTypeName`: a name that resolves to a mapped class becomes its mirror's
   * canonical name (or what the conversions map says for that name); one that
   * resolves to an unmapped class stays; both then have `$` replaced by `.`.
   * A name that does not resolve is returned as it is.
   */
  function FixTypeName(name: string, names: ClassNames, conversions: map<string, string>, w: World): (r: string)
    ensures name !in w.loadable ==> r == name
    ensures name in w.loadable ==> '$' !in r
    ensures name in w.loadable && w.loadable[name] !in names ==> r == ReplaceChar(name, '$', '.')
  {
    if name in w.loadable then
      var c := w.loadable[name];
      var chosen :=
        if c in names then
          var canonical := names[c].CanonicalName();
          if canonical in conversions then conversions[canonical] else canonical
        else name;
      ReplaceChar(chosen, '$', '.')
    else name
  }

  /** The types `getTypeNames` renders: all of them, less `java.lang.Object` when asked. */
  function Kept(ts: seq<Type>, ignoreObject: bool): (r: seq<Type>)
    ensures |r| <= |ts|
    ensures forall i | 0 <= i < |r| :: r[i] in ts && !(ignoreObject && NamesObject(r[i]))
  {
    if ts == [] then []
    else if ignoreObject && NamesObject(ts[0]) then Kept(ts[1..], ignoreObject)
    else [ts[0]] + Kept(ts[1..], ignoreObject)
  }

  /** Without `ignoreObject` nothing is dropped. */
  lemma {:induction false} KeptAll(ts: seq<Type>)
    ensures Kept(ts, false) == ts
  {
    if ts != [] {
      KeptAll(ts[1..]);
    }
  }

  /** `ParameterizedTypeName.get`: type arguments must exist and must not be primitive. */
  function Parameterize(raw: ClassName, args: seq<TypeName>): (r: Result<TypeName, Failure>)
    ensures r.Ok? <==> |args| > 0 && forall i | 0 <= i < |args| :: !args[i].PrimitiveName?
    ensures r.Ok? ==> r.value == ParameterizedName(raw, args)
  {
    if |args| == 0 then Err(NoTypeArguments)
    else if exists i | 0 <= i < |args| :: args[i].PrimitiveName? then Err(InvalidTypeArgument)
    else Ok(ParameterizedName(raw, args))
  }

  /** `WildcardTypeName.subtypeOf(b)`: `? extends b`; a primitive bound is refused. */
  function SubtypeOf(b: TypeName): (r: Result<TypeName, Failure>)
    ensures r.Ok? <==> !b.PrimitiveName?
    ensures r.Ok? ==> r.value == WildcardName(b, None)
  {
    if b.PrimitiveName? then Err(InvalidBound) else Ok(WildcardName(b, None))
  }

  /** `WildcardTypeName.supertypeOf(b)`: `? super b`; a primitive bound is refused. */
  function SupertypeOf(b: TypeName): (r: Result<TypeName, Failure>)
    ensures r.Ok? <==> !b.PrimitiveName?
    ensures r.Ok? ==> r.value == WildcardName(Named(ObjectName), Some(b))
  {
    if b.PrimitiveName? then Err(InvalidBound) else Ok(WildcardName(Named(ObjectName), Some(b)))
  }

  /**
   * `getTypeName` on a `Class`: an array class becomes an array of its
   * rendered component; a name with a dot is guessed from its fixed name; a
   * name without one (a primitive, `void`, a class in the unnamed package) is
   * `TypeName.get` of the class.
   */
  function RenderClass(c: ClassRef, redefinitions: map<string, string>, names: ClassNames, w: World): (r: Result<TypeName, Failure>)
    ensures r.Ok? ==> (r.value.ArrayName? <==> c.ArrayClass?)
    ensures r.Ok? && r.value.PrimitiveName? ==> c.PrimitiveClass?
    ensures !c.ArrayClass? && '.' !in c.TypeNameText() ==> r == Ok(Get(c))
  {
    match c
    case ArrayClass(e) =>
      var component :- RenderClass(e, redefinitions, names, w);
      Ok(ArrayName(component))
    case _ =>
      if '.' in c.TypeNameText() then
        var guessed :- BestGuess(FixTypeName(c.TypeNameText(), names, redefinitions, w));
        Ok(Named(guessed))
      else Ok(Get(c))
  }

  /** `getTypeName(type, typeRedefinitions, classNames)`. */
  function GetTypeName(t: Type, redefinitions: map<string, string>, names: ClassNames, w: World): (r: Result<TypeName, Failure>)
    ensures r.Ok? && t.ParameterizedType? ==> r.value.ParameterizedName?
    ensures r.Ok? && t.WildcardType? ==> r.value.WildcardName?
    ensures r.Ok? && t.TypeVariable? ==> r.value.Named? || r.value.VariableName?
    ensures r.Ok? && t.GenericArrayType? ==> r.value.ArrayName?
    ensures r.Ok? && t.ClassType? ==> (r.value.ArrayName? <==> t.cls.ArrayClass?)
    ensures r.Ok? && r.value.PrimitiveName? ==> t.ClassType? && t.cls.PrimitiveClass?
    decreases TypeSize(t)
  {
    match t
    case ParameterizedType(raw, args) =>
      var rawName :- BestGuess(FixTypeName(raw.TypeNameText(), names, redefinitions, w));
      var argNames :- GetTypeNames(args, redefinitions, names, w, false);
      Parameterize(rawName, argNames)
    case WildcardType(upper, lower) =>
      if lower.Some? then
        SizeOfOne(lower.value);
        var lowers :- GetTypeNames([lower.value], redefinitions, names, w, true);
        if |lowers| == 0 then Err(IndexOutOfBounds) else SupertypeOf(lowers[0])
      else if !NamesObject(upper) then
        SizeOfOne(upper);
        var uppers :- GetTypeNames([upper], redefinitions, names, w, true);
        SubtypeOf(uppers[0])
      else Ok(WildcardName(Named(ObjectName), None))
    case TypeVariable(n) =>
      var redefined := if n in redefinitions then redefinitions[n] else n;
      if redefined in w.loadable then
        var guessed :- BestGuess(redefined);
        Ok(Named(guessed))
      else Ok(VariableName(redefined, []))
    case ClassType(c) => RenderClass(c, redefinitions, names, w)
    case GenericArrayType(c) =>
      var component :- GetTypeName(c, redefinitions, names, w);
      Ok(ArrayName(component))
  }

  /** `getTypeNames`: each kept type rendered, in order; the first failure is the result. */
  function GetTypeNames(ts: seq<Type>, redefinitions: map<string, string>, names: ClassNames, w: World, ignoreObject: bool)
    : (r: Result<seq<TypeName>, Failure>)
    ensures r.Ok? ==> |r.value| == |Kept(ts, ignoreObject)|
    decreases SizeAll(ts)
  {
    if ts == [] then Ok([])
    else if ignoreObject && NamesObject(ts[0]) then GetTypeNames(ts[1..], redefinitions, names, w, ignoreObject)
    else
      var first :- GetTypeName(ts[0], redefinitions, names, w);
      var rest :- GetTypeNames(ts[1..], redefinitions, names, w, ignoreObject);
      Ok([first] + rest)
  }

  /** Every type in `ts` renders without failure. */
  predicate AllRender(ts: seq<Type>, redefinitions: map<string, string>, names: ClassNames, w: World)
  {
    forall i | 0 <= i < |ts| :: GetTypeName(ts[i], redefinitions, names, w).Ok?
  }

  /** `getTypeNames` succeeds iff every kept type renders, and then yields their renderings in order. */
  lemma GetTypeNamesElementwise(ts: seq<Type>, redefinitions: map<string, string>, names: ClassNames, w: World, ignoreObject: bool)
    ensures var r := GetTypeNames(ts, redefinitions, names, w, ignoreObject);
      var kept := Kept(ts, ignoreObject);
      && (r.Ok? <==> AllRender(kept, redefinitions, names, w))
      && (r.Ok? ==> forall i | 0 <= i < |kept| :: GetTypeName(kept[i], redefinitions, names, w) == Ok(r.value[i]))
  {
    if GetTypeNames(ts, redefinitions, names, w, ignoreObject).Ok? {
      GetTypeNamesValues(ts, redefinitions, names, w, ignoreObject);
    } else if AllRender(Kept(ts, ignoreObject), redefinitions, names, w) {
      GetTypeNamesSucceeds(ts, redefinitions, names, w, ignoreObject);
    }
  }

  lemma {:induction false} GetTypeNamesValues(ts: seq<Type>, redefinitions: map<string, string>, names: ClassNames, w: World, ignoreObject: bool)
    requires GetTypeNames(ts, redefinitions, names, w, ignoreObject).Ok?
    ensures var kept := Kept(ts, ignoreObject);
      forall i | 0 <= i < |kept| ::
        GetTypeName(kept[i], redefinitions, names, w) == Ok(GetTypeNames(ts, redefinitions, names, w, ignoreObject).value[i])
  {
    if ts != [] {
      GetTypeNamesValues(ts[1..], redefinitions, names, w, ignoreObject);
      if !(ignoreObject && NamesObject(ts[0])) {
        GetTypeNamesHead(ts, redefinitions, names, w, ignoreObject);
        RenderingsCons(ts[0], Kept(ts[1..], ignoreObject), GetTypeName(ts[0], redefinitions, names, w).value,
          GetTypeNames(ts[1..], redefinitions, names, w, ignoreObject).value, redefinitions, names, w);
      } else {
        assert Kept(ts, ignoreObject) == Kept(ts[1..], ignoreObject);
        assert GetTypeNames(ts, redefinitions, names, w, ignoreObject) == GetTypeNames(ts[1..], redefinitions, names, w, ignoreObject);
      }
    }
  }

  /** Renderings paired up elementwise stay paired when one more is put in front. */
  lemma RenderingsCons(t: Type, ts: seq<Type>, n: TypeName, ns: seq<TypeName>,
                       redefinitions: map<string, string>, names: ClassNames, w: World)
    requires GetTypeName(t, redefinitions, names, w) == Ok(n) && |ts| == |ns|
    requires forall i | 0 <= i < |ts| :: GetTypeName(ts[i], redefinitions, names, w) == Ok(ns[i])
    ensures forall i | 0 <= i < |ts| + 1 :: GetTypeName(([t] + ts)[i], redefinitions, names, w) == Ok(([n] + ns)[i])
  {
    forall i | 0 <= i < |ts| + 1
      ensures GetTypeName(([t] + ts)[i], redefinitions, names, w) == Ok(([n] + ns)[i])
    {
      if i > 0 {
        assert ([t] + ts)[i] == ts[i - 1] && ([n] + ns)[i] == ns[i - 1];
      }
    }
  }

  /** A kept first type: its rendering comes first, then those of the others. */
  lemma GetTypeNamesHead(ts: seq<Type>, redefinitions: map<string, string>, names: ClassNames, w: World, ignoreObject: bool)
    requires ts != [] && !(ignoreObject && NamesObject(ts[0]))
    requires GetTypeNames(ts, redefinitions, names, w, ignoreObject).Ok?
    ensures Kept(ts, ignoreObject) == [ts[0]] + Kept(ts[1..], ignoreObject)
    ensures GetTypeName(ts[0], redefinitions, names, w).Ok? && GetTypeNames(ts[1..], redefinitions, names, w, ignoreObject).Ok?
    ensures GetTypeNames(ts, redefinitions, names, w, ignoreObject).value
      == [GetTypeName(ts[0], redefinitions, names, w).value] + GetTypeNames(ts[1..], redefinitions, names, w, ignoreObject).value
  {
  }

  /** When all types render, the first does and so do the others. */
  lemma AllRenderTail(ts: seq<Type>, redefinitions: map<string, string>, names: ClassNames, w: World)
    requires |ts| > 0 && AllRender(ts, redefinitions, names, w)
    ensures GetTypeName(ts[0], redefinitions, names, w).Ok? && AllRender(ts[1..], redefinitions, names, w)
  {
    forall i | 0 <= i < |ts| - 1
      ensures GetTypeName(ts[1..][i], redefinitions, names, w).Ok?
    {
      assert ts[1..][i] == ts[i + 1];
    }
  }

  lemma {:induction false} GetTypeNamesSucceeds(ts: seq<Type>, redefinitions: map<string, string>, names: ClassNames, w: World, ignoreObject: bool)
    requires AllRender(Kept(ts, ignoreObject), redefinitions, names, w)
    ensures GetTypeNames(ts, redefinitions, names, w, ignoreObject).Ok?
  {
    if ts != [] {
      var kept := Kept(ts, ignoreObject);
      var rest := Kept(ts[1..], ignoreObject);
      if ignoreObject && NamesObject(ts[0]) {
        assert kept == rest;
        GetTypeNamesSucceeds(ts[1..], redefinitions, names, w, ignoreObject);
      } else {
        assert kept == [ts[0]] + rest;
        AllRenderTail(kept, redefinitions, names, w);
        GetTypeNamesSucceeds(ts[1..], redefinitions, names, w, ignoreObject);
      }
    }
  }

  /** A type variable renders as the text it is redefined to (its own name when it has none). */
  lemma TypeVariableText(n: string, redefinitions: map<string, string>, names: ClassNames, w: World)
    requires GetTypeName(TypeVariable(n), redefinitions, names, w).Ok?
    ensures ToString(GetTypeName(TypeVariable(n), redefinitions, names, w).value)
      == if n in redefinitions then redefinitions[n] else n
  {
    var redefined := if n in redefinitions then redefinitions[n] else n;
    if redefined in w.loadable {
      BestGuessCanonical(redefined);
    }
  }

  /** A class whose name has a dot renders as its fixed name: the mirror's name when it has one. */
  lemma DottedClassText(c: ClassRef, redefinitions: map<string, string>, names: ClassNames, w: World)
    requires !c.ArrayClass? && '.' in c.TypeNameText()
    requires GetTypeName(ClassType(c), redefinitions, names, w).Ok?
    ensures ToString(GetTypeName(ClassType(c), redefinitions, names, w).value)
      == FixTypeName(c.TypeNameText(), names, redefinitions, w)
  {
    BestGuessCanonical(FixTypeName(c.TypeNameText(), names, redefinitions, w));
  }

  /** A parameterized type keeps every argument, `java.lang.Object` included, and its raw type's fixed name. */
  lemma ParameterizedKeepsArguments(raw: ClassRef, args: seq<Type>, redefinitions: map<string, string>, names: ClassNames, w: World)
    requires GetTypeName(ParameterizedType(raw, args), redefinitions, names, w).Ok?
    ensures var r := GetTypeName(ParameterizedType(raw, args), redefinitions, names, w).value;
      && r.ParameterizedName? && |r.typeArguments| == |args|
      && r.rawType.CanonicalName() == FixTypeName(raw.TypeNameText(), names, redefinitions, w)
  {
    KeptAll(args);
    BestGuessCanonical(FixTypeName(raw.TypeNameText(), names, redefinitions, w));
  }

  /** `? super Object` has its only lower bound filtered out, so indexing the empty result throws. */
  lemma SuperObjectFails(redefinitions: map<string, string>, names: ClassNames, w: World)
    ensures GetTypeName(WildcardType(ClassType(ObjectClass), Some(ClassType(ObjectClass))), redefinitions, names, w)
      == Err(IndexOutOfBounds)
  {
    ObjectNamesObject();
    assert [ClassType(ObjectClass)][1..] == [];
  }

  /** Wildcards render as `?`, `? extends U` or `? super L`, with the bound rendered under the same redefinitions. */
  lemma WildcardText(upper: Type, lower: Option<Type>, redefinitions: map<string, string>, names: ClassNames, w: World)
    requires GetTypeName(WildcardType(upper, lower), redefinitions, names, w).Ok?
    ensures var text := ToString(GetTypeName(WildcardType(upper, lower), redefinitions, names, w).value);
      && (lower.Some? ==>
            (GetTypeName(lower.value, redefinitions, names, w).Ok? &&
             text == "? super " + ToString(GetTypeName(lower.value, redefinitions, names, w).value)))
      && (lower.None? && NamesObject(upper) ==> text == "?")
      && (lower.None? && !NamesObject(upper) ==> GetTypeName(upper, redefinitions, names, w).Ok?)
      && (lower.None? && !NamesObject(upper) && GetTypeName(upper, redefinitions, names, w).value != Named(ObjectName) ==>
            text == "? extends " + ToString(GetTypeName(upper, redefinitions, names, w).value))
  {
    if lower.Some? {
      GetTypeNamesElementwise([lower.value], redefinitions, names, w, true);
    } else if !NamesObject(upper) {
      GetTypeNamesElementwise([upper], redefinitions, names, w, true);
    }
  }

  /**
   * A class whose name has no dot (a primitive, `void`, a class in the
   * unnamed package) is rendered by `TypeName.get`: primitives and `void`
   * keep their keyword.
   */
  lemma UndottedClassText(c: ClassRef, redefinitions: map<string, string>, names: ClassNames, w: World)
    requires !c.ArrayClass? && '.' !in c.TypeNameText()
    ensures GetTypeName(ClassType(c), redefinitions, names, w) == Ok(Get(c))
    ensures c.PrimitiveClass? ==> ToString(Get(c)) == c.keyword
  {
  }

  /** A generic array type renders as its rendered component followed by `[]`. */
  lemma GenericArrayText(c: Type, redefinitions: map<string, string>, names: ClassNames, w: World)
    requires GetTypeName(GenericArrayType(c), redefinitions, names, w).Ok?
    ensures GetTypeName(c, redefinitions, names, w).Ok?
    ensures ToString(GetTypeName(GenericArrayType(c), redefinitions, names, w).value)
      == ToString(GetTypeName(c, redefinitions, names, w).value) + "[]"
  {
  }

  /** An array class renders as its rendered component followed by `[]`. */
  lemma ArrayClassText(c: ClassRef, redefinitions: map<string, string>, names: ClassNames, w: World)
    requires GetTypeName(ClassType(ArrayClass(c)), redefinitions, names, w).Ok?
    ensures GetTypeName(ClassType(c), redefinitions, names, w).Ok?
    ensures ToString(GetTypeName(ClassType(ArrayClass(c)), redefinitions, names, w).value)
      == ToString(GetTypeName(ClassType(c), redefinitions, names, w).value) + "[]"
  {
  }

  /** `list.remove(o)`: drops the first occurrence only. */
  function WithoutFirst(ts: seq<TypeName>, x: TypeName): (r: seq<TypeName>)
    ensures x in ts ==> |r| == |ts| - 1
    ensures x !in ts ==> r == ts
    ensures forall b | b in r :: b in ts
  {
    if ts == [] then []
    else if ts[0] == x then ts[1..]
    else [ts[0]] + WithoutFirst(ts[1..], x)
  }

  /**
   * `getTypeVariableName`: the variable's name with its bounds rendered,
   * `java.lang.Object` bounds left out (and `TypeVariableName.get` dropping
   * one more `Object`); primitive bounds are refused.
   */
  function GetTypeVariableName(tp: TypeParameter, names: ClassNames, conversions: map<string, string>, w: World)
    : (r: Result<TypeName, Failure>)
    ensures r.Ok? ==> r.value.VariableName? && r.value.name == tp.name
    ensures r.Ok? ==> |r.value.bounds| <= |tp.bounds|
  {
    var bounds :- GetTypeNames(tp.bounds, conversions, names, w, true);
    if exists i | 0 <= i < |bounds| :: bounds[i].PrimitiveName? then Err(InvalidBound)
    else Ok(VariableName(tp.name, WithoutFirst(bounds, Named(ObjectName))))
  }

  /** A kept bound renders to a primitive or `void`. */
  predicate PrimitiveBound(kept: seq<Type>, names: ClassNames, conversions: map<string, string>, w: World)
  {
    exists i | 0 <= i < |kept| ::
      GetTypeName(kept[i], conversions, names, w).Ok? && GetTypeName(kept[i], conversions, names, w).value.PrimitiveName?
  }

  /**
   * `getTypeVariableName` succeeds exactly when every kept bound renders and
   * none renders to a primitive; once all render, a primitive bound fails
   * with `InvalidBound`.
   */
  lemma GetTypeVariableNameOkIff(tp: TypeParameter, names: ClassNames, conversions: map<string, string>, w: World)
    ensures var r := GetTypeVariableName(tp, names, conversions, w);
      var kept := Kept(tp.bounds, true);
      && (r.Ok? <==> AllRender(kept, conversions, names, w) && !PrimitiveBound(kept, names, conversions, w))
      && (AllRender(kept, conversions, names, w) && PrimitiveBound(kept, names, conversions, w) ==> r == Err(InvalidBound))
  {
    GetTypeNamesElementwise(tp.bounds, conversions, names, w, true);
    var rendered := GetTypeNames(tp.bounds, conversions, names, w, true);
    var kept := Kept(tp.bounds, true);
    if rendered.Ok? && PrimitiveBound(kept, names, conversions, w) {
      var i :| 0 <= i < |kept| && GetTypeName(kept[i], conversions, names, w).Ok?
        && GetTypeName(kept[i], conversions, names, w).value.PrimitiveName?;
      assert rendered.value[i].PrimitiveName?;
    }
  }

  /** Each bound `getTypeVariableName` yields is the rendering of a kept bound. */
  lemma GetTypeVariableNameBounds(tp: TypeParameter, names: ClassNames, conversions: map<string, string>, w: World)
    ensures var r := GetTypeVariableName(tp, names, conversions, w);
      var kept := Kept(tp.bounds, true);
      r.Ok? ==> forall b | b in r.value.bounds :: exists i | 0 <= i < |kept| ::
        GetTypeName(kept[i], conversions, names, w) == Ok(b)
  {
    var r := GetTypeVariableName(tp, names, conversions, w);
    if r.Ok? {
      GetTypeNamesElementwise(tp.bounds, conversions, names, w, true);
      var bounds := GetTypeNames(tp.bounds, conversions, names, w, true).value;
      var kept := Kept(tp.bounds, true);
      forall b | b in r.value.bounds
        ensures exists i | 0 <= i < |kept| :: GetTypeName(kept[i], conversions, names, w) == Ok(b)
      {
        var i :| 0 <= i < |bounds| && bounds[i] == b;
        assert GetTypeName(kept[i], conversions, names, w) == Ok(b);
      }
    }
  }

  /**
   * `TypeVariableName.get` drops one `java.lang.Object` bound: with none
   * among the renderings the bounds are all of them in order, with one
   * there is one bound fewer.
   */
  lemma GetTypeVariableNameObjectBound(tp: TypeParameter, names: ClassNames, conversions: map<string, string>, w: World)
    ensures var r := GetTypeVariableName(tp, names, conversions, w);
      var kept := Kept(tp.bounds, true);
      && (r.Ok? && (forall i | 0 <= i < |kept| :: GetTypeName(kept[i], conversions, names, w) != Ok(Named(ObjectName)))
          ==> |r.value.bounds| == |kept| && forall i | 0 <= i < |kept| :: GetTypeName(kept[i], conversions, names, w) == Ok(r.value.bounds[i]))
      && (r.Ok? && (exists i | 0 <= i < |kept| :: GetTypeName(kept[i], conversions, names, w) == Ok(Named(ObjectName)))
          ==> |r.value.bounds| == |kept| - 1)
  {
    var r := GetTypeVariableName(tp, names, conversions, w);
    if r.Ok? {
      GetTypeNamesElementwise(tp.bounds, conversions, names, w, true);
      var bounds := GetTypeNames(tp.bounds, conversions, names, w, true).value;
      var kept := Kept(tp.bounds, true);
      if exists i | 0 <= i < |kept| :: GetTypeName(kept[i], conversions, names, w) == Ok(Named(ObjectName)) {
        var i :| 0 <= i < |kept| && GetTypeName(kept[i], conversions, names, w) == Ok(Named(ObjectName));
        assert bounds[i] == Named(ObjectName);
      } else {
        forall i | 0 <= i < |bounds|
          ensures bounds[i] != Named(ObjectName)
        {
          assert GetTypeName(kept[i], conversions, names, w) == Ok(bounds[i]);
        }
        assert r.value.bounds == bounds;
      }
    }
  }

  /** `T extends Object` (the default bound) yields a variable with no bounds. */
  lemma ObjectBoundDropped(name: string, names: ClassNames, conversions: map<string, string>, w: World)
    ensures GetTypeVariableName(TypeParameter(name, [ClassType(ObjectClass)]), names, conversions, w)
      == Ok(VariableName(name, []))
  {
    ObjectNamesObject();
    var bounds := [ClassType(ObjectClass)];
    assert bounds[1..] == [];
    assert GetTypeNames(bounds, map[], names, w, true) == GetTypeNames([], map[], names, w, true);
    assert GetTypeNames(bounds, conversions, names, w, true) == Ok([]);
  }

  /** An annotation the generator copies: public, and not from `jdk.internal`. */
  predicate Copied(a: Annotation)
  {
    a.isPublic && !StartsWith(a.annotationType.PackageName(), "jdk.internal")
  }

  /** `getAnnotationTypeNames`: the fixed names of the copied annotations, in order. */
  function AnnotationTypeNames(annotations: seq<Annotation>, names: ClassNames, w: World): (r: seq<string>)
    ensures |r| <= |annotations|
  {
    if annotations == [] then []
    else
      var prior := AnnotationTypeNames(annotations[..|annotations| - 1], names, w);
      var a := annotations[|annotations| - 1];
      if Copied(a) then prior + [FixTypeName(a.annotationType.TypeNameText(), names, map[], w)] else prior
  }

  /** `n` is the fixed name of some annotation in the list that `getAnnotationTypeNames` copies. */
  predicate FixedNameOfCopied(annotations: seq<Annotation>, n: string, names: ClassNames, w: World)
  {
    exists j | 0 <= j < |annotations| ::
      Copied(annotations[j]) && n == FixTypeName(annotations[j].annotationType.TypeNameText(), names, map[], w)
  }

  /**
   * Exactly the copied annotations give names: every name is the fixed name
   * of a copied annotation, and every copied annotation's fixed name is
   * there; all of them copied give one name each, none copied gives none.
   */
  lemma {:induction false} AnnotationTypeNamesFrom(annotations: seq<Annotation>, names: ClassNames, w: World)
    ensures var r := AnnotationTypeNames(annotations, names, w);
      && ((forall i | 0 <= i < |annotations| :: Copied(annotations[i])) ==> |r| == |annotations|)
      && ((forall i | 0 <= i < |annotations| :: !Copied(annotations[i])) ==> r == [])
      && (forall i | 0 <= i < |r| :: FixedNameOfCopied(annotations, r[i], names, w))
      && (forall j | 0 <= j < |annotations| && Copied(annotations[j]) ::
           FixTypeName(annotations[j].annotationType.TypeNameText(), names, map[], w) in r)
  {
    if annotations != [] {
      var init := annotations[..|annotations| - 1];
      var a := annotations[|annotations| - 1];
      var prior := AnnotationTypeNames(init, names, w);
      var r := AnnotationTypeNames(annotations, names, w);
      var name := FixTypeName(a.annotationType.TypeNameText(), names, map[], w);
      AnnotationTypeNamesFrom(init, names, w);
      assert forall j | 0 <= j < |init| :: init[j] == annotations[j];
      assert r == prior + [name] || r == prior;
      forall i | 0 <= i < |r|
        ensures FixedNameOfCopied(annotations, r[i], names, w)
      {
        if i < |prior| {
          assert r[i] == prior[i];
          assert FixedNameOfCopied(init, prior[i], names, w);
          var j :| 0 <= j < |init| && Copied(init[j])
            && prior[i] == FixTypeName(init[j].annotationType.TypeNameText(), names, map[], w);
          assert annotations[j] == init[j];
        } else {
          assert Copied(a) && r[i] == name;
          assert annotations[|annotations| - 1] == a;
        }
      }
      forall j | 0 <= j < |annotations| && Copied(annotations[j])
        ensures FixTypeName(annotations[j].annotationType.TypeNameText(), names, map[], w) in r
      {
        if j < |init| {
          assert FixTypeName(init[j].annotationType.TypeNameText(), names, map[], w) in prior;
        }
      }
    }
  }

  // ---------------------------------------------------------------------
  // Type-variable redefinitions along the ancestors
  // ---------------------------------------------------------------------

  /** Each argument rendered with the child's redefinitions, as the first loop of `getRedefinitions` renders it. */
  function Renderings(args: seq<Type>, names: ClassNames, child: map<string, string>, w: World): (r: seq<Result<TypeName, Failure>>)
    ensures |r| == |args|
  {
    if args == [] then []
    else Renderings(args[..|args| - 1], names, child, w) + [GetTypeName(args[|args| - 1], child, names, w)]
  }

  /** The `i`-th rendering is that of the `i`-th argument. */
  lemma {:induction false} RenderingAt(args: seq<Type>, i: nat, names: ClassNames, child: map<string, string>, w: World)
    requires i < |args|
    ensures Renderings(args, names, child, w)[i] == GetTypeName(args[i], child, names, w)
  {
    if i < |args| - 1 {
      RenderingAt(args[..|args| - 1], i, names, child, w);
    }
  }

  /**
   * The first `n` rounds of the first loop of `getRedefinitions`: the i-th
   * super variable bound to the text of the i-th rendered argument; the
   * first argument that fails to render ends the loop with its failure.
   */
  function Bound(rendered: seq<Result<TypeName, Failure>>, vars: seq<string>, n: nat): (r: Result<map<string, string>, Failure>)
    requires n <= |rendered| <= |vars|
  {
    if n == 0 then Ok(map[])
    else
      var prior :- Bound(rendered, vars, n - 1);
      var name :- rendered[n - 1];
      Ok(prior[vars[n - 1] := ToString(name)])
  }

  /** The override the second loop applies: the child's own redefinition wins. */
  function Overridden(bound: map<string, string>, child: map<string, string>): map<string, string>
  {
    map k | k in bound :: if k in child then child[k] else bound[k]
  }

  /** `getRedefinitions(childTypeArguments, superTypeVariables, classNames, childRedefinitions)`. */
  function Redefinitions(args: seq<Type>, vars: seq<string>, names: ClassNames, child: map<string, string>, w: World)
    : (r: Result<map<string, string>, Failure>)
    requires |args| <= |vars|
  {
    var bound :- Bound(Renderings(args, names, child, w), vars, |args|);
    Ok(Overridden(bound, child))
  }

  /** Once one argument fails to render, every later round fails the same way. */
  lemma {:induction false} BoundStopsAtError(rendered: seq<Result<TypeName, Failure>>, vars: seq<string>, i: nat)
    requires i <= |rendered| <= |vars| && Bound(rendered, vars, i).Err?
    ensures Bound(rendered, vars, |rendered|) == Bound(rendered, vars, i)
    decreases |rendered| - i
  {
    if i < |rendered| {
      BoundStopsAtError(rendered, vars, i + 1);
    }
  }

  /** The redefined variables are exactly the first n super type variables, n the argument count. */
  lemma RedefinitionKeys(args: seq<Type>, vars: seq<string>, names: ClassNames, child: map<string, string>, w: World)
    requires |args| <= |vars| && Redefinitions(args, vars, names, child, w).Ok?
    ensures Redefinitions(args, vars, names, child, w).value.Keys == set i | 0 <= i < |args| :: vars[i]
  {
    BoundKeys(Renderings(args, names, child, w), vars, |args|);
  }

  lemma {:induction false} BoundKeys(rendered: seq<Result<TypeName, Failure>>, vars: seq<string>, n: nat)
    requires n <= |rendered| <= |vars| && Bound(rendered, vars, n).Ok?
    ensures Bound(rendered, vars, n).value.Keys == set i | 0 <= i < n :: vars[i]
  {
    if n > 0 {
      BoundKeys(rendered, vars, n - 1);
      var prior := set i | 0 <= i < n - 1 :: vars[i];
      assert (set i | 0 <= i < n :: vars[i]) == prior + {vars[n - 1]};
    }
  }

  /**
   * What a redefined variable stands for: the child's redefinition when it
   * has one, otherwise the rendering of the last argument bound to it.
   */
  lemma RedefinitionValue(args: seq<Type>, vars: seq<string>, i: nat, names: ClassNames, child: map<string, string>, w: World)
    requires |args| <= |vars| && i < |args| && Redefinitions(args, vars, names, child, w).Ok?
    requires forall j | i < j < |args| :: vars[j] != vars[i]
    ensures var r := Redefinitions(args, vars, names, child, w).value;
      && vars[i] in r
      && (vars[i] in child ==> r[vars[i]] == child[vars[i]])
      && (vars[i] !in child ==>
            (GetTypeName(args[i], child, names, w).Ok? &&
             r[vars[i]] == ToString(GetTypeName(args[i], child, names, w).value)))
  {
    var rendered := Renderings(args, names, child, w);
    BoundValue(rendered, vars, |args|, i);
    RenderingAt(args, i, names, child, w);
  }

  lemma {:induction false} BoundValue(rendered: seq<Result<TypeName, Failure>>, vars: seq<string>, n: nat, i: nat)
    requires n <= |rendered| <= |vars| && i < n && Bound(rendered, vars, n).Ok?
    requires forall j | i < j < n :: vars[j] != vars[i]
    ensures var b := Bound(rendered, vars, n).value;
      vars[i] in b && rendered[i].Ok? && b[vars[i]] == ToString(rendered[i].value)
  {
    if i < n - 1 {
      BoundValue(rendered, vars, n - 1, i);
    }
  }

  /** `getRedefinitions`: its first loop binds the arguments, its second applies the child's overrides. */
  method GetRedefinitions(args: seq<Type>, vars: seq<string>, names: ClassNames, child: map<string, string>, w: World)
    returns (r: Result<map<string, string>, Failure>)
    requires |args| <= |vars|
    ensures r == Redefinitions(args, vars, names, child, w)
  {
    var bound := BindArguments(args, vars, names, child, w);
    if bound.Err? {
      return Err(bound.error);
    }
    var redefinitions := ApplyOverrides(bound.value, child);
    r := Ok(redefinitions);
  }

  /** The first loop of `getRedefinitions`. */
  method BindArguments(args: seq<Type>, vars: seq<string>, names: ClassNames, child: map<string, string>, w: World)
    returns (r: Result<map<string, string>, Failure>)
    requires |args| <= |vars|
    ensures r == Bound(Renderings(args, names, child, w), vars, |args|)
  {
    ghost var rendered := Renderings(args, names, child, w);
    var redefinitions: map<string, string> := map[];
    var i := 0;
    while i < |args|
      invariant 0 <= i <= |args|
      invariant Bound(rendered, vars, i) == Ok(redefinitions)
    {
      var next := BindArgument(args, vars, i, redefinitions, names, child, w);
      if next.Err? {
        BoundStopsAtError(rendered, vars, i + 1);
        return next;
      }
      redefinitions := next.value;
      i := i + 1;
    }
    r := Ok(redefinitions);
  }

  /** The body of the first loop: the `i`-th argument rendered and bound to the `i`-th super variable. */
  method BindArgument(args: seq<Type>, vars: seq<string>, i: nat, bound: map<string, string>, names: ClassNames,
                      child: map<string, string>, w: World)
    returns (r: Result<map<string, string>, Failure>)
    requires i < |args| <= |vars| && Bound(Renderings(args, names, child, w), vars, i) == Ok(bound)
    ensures r == Bound(Renderings(args, names, child, w), vars, i + 1)
  {
    var rendered := GetTypeName(args[i], child, names, w);
    RenderingAt(args, i, names, child, w);
    if rendered.Err? {
      return Err(rendered.error);
    }
    r := Ok(bound[vars[i] := ToString(rendered.value)]);
  }

  /** The second loop of `getRedefinitions`, over a copy of the entries. */
  method ApplyOverrides(bound: map<string, string>, child: map<string, string>) returns (redefinitions: map<string, string>)
    ensures redefinitions == Overridden(bound, child)
  {
    redefinitions := bound;
    var pending := bound.Keys;
    while pending != {}
      invariant pending <= bound.Keys && redefinitions.Keys == bound.Keys
      invariant forall k | k in bound ::
        redefinitions[k] == if k in pending then bound[k] else Overridden(bound, child)[k]
      decreases |pending|
    {
      var k :| k in pending;
      redefinitions := redefinitions[k := if k in child then child[k] else bound[k]];
      pending := pending - {k};
    }
  }

  /** Each class's place in the hierarchy, the measure the ancestor walk descends. */
  function Rank(w: World, c: ClassRef): nat
  {
    if c in w.depth then w.depth[c] else 0
  }

  /** The map a direct supertype contributes: its own redefinitions after those of its ancestors. */
  function Contribution(w: World, s: SuperRef, names: ClassNames, child: map<string, string>)
    : (r: Result<map<ClassRef, map<string, string>>, Failure>)
    requires w.Ranked() && s.erased in w.classes
    requires s.arguments.Some? ==> |s.arguments.value| <= |w.classes[s.erased].typeParameters|
    decreases Rank(w, s.erased), 2
  {
    var args := if s.arguments.Some? then s.arguments.value else [];
    var redefinitions :- Redefinitions(args, w.classes[s.erased].typeParameters, names, child, w);
    var ancestors :- Conversions(w, s.erased, names, redefinitions);
    Ok(ancestors[s.erased := redefinitions])
  }

  /**
   * `compileTypeVariableConversions(c, classNames, childRedefinitions)`:
   * nothing for `Object`; otherwise what a parameterized superclass
   * contributes (a raw one contributes nothing), then what each direct
   * interface contributes, later ones overwriting earlier ones.
   */
  function Conversions(w: World, c: ClassRef, names: ClassNames, child: map<string, string>)
    : (r: Result<map<ClassRef, map<string, string>>, Failure>)
    requires w.Ranked() && (c == ObjectClass || c in w.classes)
    decreases Rank(w, c), 1
  {
    if c == ObjectClass then Ok(map[])
    else
      var decl := w.classes[c];
      var start :-
        if decl.superclass.Some? && decl.superclass.value.arguments.Some?
        then Contribution(w, decl.superclass.value, names, child)
        else Ok(map[]);
      InterfaceConversions(w, c, decl.interfaces, start, names, child)
  }

  /** The interface loop of `compileTypeVariableConversions` over a prefix of the interfaces. */
  function InterfaceConversions(w: World, c: ClassRef, ifs: seq<SuperRef>, start: map<ClassRef, map<string, string>>,
                                names: ClassNames, child: map<string, string>)
    : (r: Result<map<ClassRef, map<string, string>>, Failure>)
    requires w.Ranked() && c in w.classes && ifs <= w.classes[c].interfaces
    decreases Rank(w, c), 0, |ifs|
  {
    if ifs == [] then Ok(start)
    else
      var prior :- InterfaceConversions(w, c, ifs[..|ifs| - 1], start, names, child);
      assert w.RankedBelow(c, w.classes[c].interfaces[|ifs| - 1]);
      var contribution :- Contribution(w, ifs[|ifs| - 1], names, child);
      Ok(prior + contribution)
  }

  /** One more interface: its contribution is added to what the earlier ones gave, or its failure is the result. */
  lemma InterfaceConversionsStep(w: World, c: ClassRef, i: nat, start: map<ClassRef, map<string, string>>,
                                 output: map<ClassRef, map<string, string>>, names: ClassNames, child: map<string, string>)
    requires w.Ranked() && c in w.classes && i < |w.classes[c].interfaces|
    requires InterfaceConversions(w, c, w.classes[c].interfaces[..i], start, names, child) == Ok(output)
    ensures w.RankedBelow(c, w.classes[c].interfaces[i])
    ensures var contribution := Contribution(w, w.classes[c].interfaces[i], names, child);
      InterfaceConversions(w, c, w.classes[c].interfaces[..i + 1], start, names, child)
      == if contribution.Err? then Err(contribution.error) else Ok(output + contribution.value)
  {
    var ifs := w.classes[c].interfaces;
    assert ifs[..i + 1][..i] == ifs[..i];
    assert w.RankedBelow(c, ifs[i]);
  }

  /** Once one interface fails, every longer prefix fails the same way. */
  lemma {:induction false} InterfaceConversionsStopAtError(w: World, c: ClassRef, i: nat, start: map<ClassRef, map<string, string>>,
                                                           names: ClassNames, child: map<string, string>)
    requires w.Ranked() && c in w.classes && i <= |w.classes[c].interfaces|
    requires InterfaceConversions(w, c, w.classes[c].interfaces[..i], start, names, child).Err?
    ensures InterfaceConversions(w, c, w.classes[c].interfaces, start, names, child)
      == InterfaceConversions(w, c, w.classes[c].interfaces[..i], start, names, child)
    decreases |w.classes[c].interfaces| - i
  {
    var ifs := w.classes[c].interfaces;
    if i < |ifs| {
      assert ifs[..i + 1][..i] == ifs[..i];
      InterfaceConversionsStopAtError(w, c, i + 1, start, names, child);
    } else {
      assert ifs[..i] == ifs;
    }
  }

  /** `compileTypeVariableConversions`, recursive over the ancestors. */
  method CompileTypeVariableConversions(w: World, c: ClassRef, names: ClassNames, child: map<string, string>)
    returns (r: Result<map<ClassRef, map<string, string>>, Failure>)
    requires w.Ranked() && (c == ObjectClass || c in w.classes)
    ensures r == Conversions(w, c, names, child)
    decreases Rank(w, c), 2
  {
    if c == ObjectClass {
      return Ok(map[]);
    }
    var decl := w.classes[c];
    var output: map<ClassRef, map<string, string>> := map[];
    if decl.superclass.Some? && decl.superclass.value.arguments.Some? {
      var contribution := ContributionOf(w, c, decl.superclass.value, names, child);
      if contribution.Err? {
        return Err(contribution.error);
      }
      output := contribution.value;
    }
    r := AddInterfaces(w, c, output, names, child);
  }

  /** The loop of `compileTypeVariableConversions` over the direct interfaces. */
  method AddInterfaces(w: World, c: ClassRef, start: map<ClassRef, map<string, string>>, names: ClassNames, child: map<string, string>)
    returns (r: Result<map<ClassRef, map<string, string>>, Failure>)
    requires w.Ranked() && c in w.classes
    ensures r == InterfaceConversions(w, c, w.classes[c].interfaces, start, names, child)
    decreases Rank(w, c), 1
  {
    var interfaces := w.classes[c].interfaces;
    var output := start;
    var i := 0;
    while i < |interfaces|
      invariant 0 <= i <= |interfaces|
      invariant InterfaceConversions(w, c, interfaces[..i], start, names, child) == Ok(output)
    {
      assert interfaces[..i + 1][..i] == interfaces[..i];
      assert w.RankedBelow(c, interfaces[i]);
      var contribution := ContributionOf(w, c, interfaces[i], names, child);
      InterfaceConversionsStep(w, c, i, start, output, names, child);
      if contribution.Err? {
        InterfaceConversionsStopAtError(w, c, i + 1, start, names, child);
        return Err(contribution.error);
      }
      output := output + contribution.value;
      i := i + 1;
    }
    assert interfaces[..i] == interfaces;
    r := Ok(output);
  }

  /** One direct supertype's share: its redefinitions, then its own ancestors' maps, then its own entry. */
  method ContributionOf(w: World, c: ClassRef, s: SuperRef, names: ClassNames, child: map<string, string>)
    returns (r: Result<map<ClassRef, map<string, string>>, Failure>)
    requires w.Ranked() && w.RankedBelow(c, s)
    ensures r == Contribution(w, s, names, child)
    decreases Rank(w, c), 0
  {
    var args := if s.arguments.Some? then s.arguments.value else [];
    var redefinitions := GetRedefinitions(args, w.classes[s.erased].typeParameters, names, child, w);
    if redefinitions.Err? {
      return Err(redefinitions.error);
    }
    var temp := CompileTypeVariableConversions(w, s.erased, names, redefinitions.value);
    if temp.Err? {
      return Err(temp.error);
    }
    r := Ok(temp.value[s.erased := redefinitions.value]);
  }

  /**
   * The ancestors the walk records: a parameterized superclass and every
   * direct interface, each with its own such ancestors; a raw superclass
   * and everything above it are not followed.
   */
  function Ancestors(w: World, c: ClassRef): set<ClassRef>
    requires w.Ranked() && (c == ObjectClass || c in w.classes)
    decreases Rank(w, c), 1
  {
    if c == ObjectClass then {}
    else
      var decl := w.classes[c];
      var fromSuper :=
        if decl.superclass.Some? && decl.superclass.value.arguments.Some?
        then {decl.superclass.value.erased} + Ancestors(w, decl.superclass.value.erased)
        else {};
      fromSuper + InterfaceAncestors(w, c, decl.interfaces)
  }

  function InterfaceAncestors(w: World, c: ClassRef, ifs: seq<SuperRef>): set<ClassRef>
    requires w.Ranked() && c in w.classes && ifs <= w.classes[c].interfaces
    decreases Rank(w, c), 0, |ifs|
  {
    if ifs == [] then {}
    else
      var last := ifs[|ifs| - 1];
      assert w.RankedBelow(c, w.classes[c].interfaces[|ifs| - 1]);
      InterfaceAncestors(w, c, ifs[..|ifs| - 1]) + {last.erased} + Ancestors(w, last.erased)
  }

  /** The walk records exactly the ancestors it follows: `Object` has none, raw superclasses are skipped. */
  lemma {:induction false} ConversionKeys(w: World, c: ClassRef, names: ClassNames, child: map<string, string>)
    requires w.Ranked() && (c == ObjectClass || c in w.classes)
    requires Conversions(w, c, names, child).Ok?
    ensures Conversions(w, c, names, child).value.Keys == Ancestors(w, c)
    decreases Rank(w, c), 1
  {
    if c != ObjectClass {
      var decl := w.classes[c];
      var start :=
        if decl.superclass.Some? && decl.superclass.value.arguments.Some?
        then Contribution(w, decl.superclass.value, names, child)
        else Ok(map[]);
      if decl.superclass.Some? && decl.superclass.value.arguments.Some? {
        ContributionKeys(w, decl.superclass.value, names, child);
      }
      InterfaceConversionKeys(w, c, decl.interfaces, start.value, names, child);
    }
  }

  lemma {:induction false} ContributionKeys(w: World, s: SuperRef, names: ClassNames, child: map<string, string>)
    requires w.Ranked() && s.erased in w.classes
    requires s.arguments.Some? ==> |s.arguments.value| <= |w.classes[s.erased].typeParameters|
    requires Contribution(w, s, names, child).Ok?
    ensures Contribution(w, s, names, child).value.Keys == {s.erased} + Ancestors(w, s.erased)
    decreases Rank(w, s.erased), 2
  {
    var args := if s.arguments.Some? then s.arguments.value else [];
    var redefinitions := Redefinitions(args, w.classes[s.erased].typeParameters, names, child, w).value;
    ConversionKeys(w, s.erased, names, redefinitions);
  }

  lemma {:induction false} InterfaceConversionKeys(w: World, c: ClassRef, ifs: seq<SuperRef>, start: map<ClassRef, map<string, string>>,
                                                   names: ClassNames, child: map<string, string>)
    requires w.Ranked() && c in w.classes && ifs <= w.classes[c].interfaces
    requires InterfaceConversions(w, c, ifs, start, names, child).Ok?
    ensures InterfaceConversions(w, c, ifs, start, names, child).value.Keys == start.Keys + InterfaceAncestors(w, c, ifs)
    decreases Rank(w, c), 0, |ifs|
  {
    if ifs != [] {
      assert w.RankedBelow(c, w.classes[c].interfaces[|ifs| - 1]);
      InterfaceConversionKeys(w, c, ifs[..|ifs| - 1], start, names, child);
      ContributionKeys(w, ifs[|ifs| - 1], names, child);
    }
  }

  /** Every direct interface is recorded, raw ones included. */
  lemma DirectInterfacesRecorded(w: World, c: ClassRef, i: nat, names: ClassNames, child: map<string, string>)
    requires w.Ranked() && c in w.classes && c != ObjectClass && i < |w.classes[c].interfaces|
    requires Conversions(w, c, names, child).Ok?
    ensures w.classes[c].interfaces[i].erased in Conversions(w, c, names, child).value
  {
    ConversionKeys(w, c, names, child);
    InterfaceInAncestors(w, c, w.classes[c].interfaces, i);
  }

  lemma {:induction false} InterfaceInAncestors(w: World, c: ClassRef, ifs: seq<SuperRef>, i: nat)
    requires w.Ranked() && c in w.classes && ifs <= w.classes[c].interfaces && i < |ifs|
    ensures ifs[i].erased in InterfaceAncestors(w, c, ifs)
    decreases |ifs|
  {
    if i < |ifs| - 1 {
      InterfaceInAncestors(w, c, ifs[..|ifs| - 1], i);
    }
  }

  /** A raw superclass that no interface leads to is not recorded. */
  lemma RawSuperclassSkipped(w: World, c: ClassRef, names: ClassNames, child: map<string, string>)
    requires w.Ranked() && c in w.classes && c != ObjectClass
    requires w.classes[c].superclass.Some? && w.classes[c].superclass.value.arguments.None?
    requires w.classes[c].superclass.value.erased !in InterfaceAncestors(w, c, w.classes[c].interfaces)
    requires Conversions(w, c, names, child).Ok?
    ensures w.classes[c].superclass.value.erased !in Conversions(w, c, names, child).value
  {
    ConversionKeys(w, c, names, child);
  }

  /** The last direct interface's own redefinitions are put last, so they are what it maps to. */
  lemma LastInterfaceWins(w: World, c: ClassRef, names: ClassNames, child: map<string, string>)
    requires w.Ranked() && c in w.classes && c != ObjectClass && |w.classes[c].interfaces| > 0
    requires Conversions(w, c, names, child).Ok?
    ensures var s := w.classes[c].interfaces[|w.classes[c].interfaces| - 1];
      var args := if s.arguments.Some? then s.arguments.value else [];
      && w.RankedBelow(c, s)
      && Redefinitions(args, w.classes[s.erased].typeParameters, names, child, w).Ok?
      && s.erased in Conversions(w, c, names, child).value
      && Conversions(w, c, names, child).value[s.erased]
         == Redefinitions(args, w.classes[s.erased].typeParameters, names, child, w).value
  {
    var decl := w.classes[c];
    var ifs := decl.interfaces;
    var n := |ifs|;
    assert w.RankedBelow(c, ifs[n - 1]);
    var start :=
      if decl.superclass.Some? && decl.superclass.value.arguments.Some?
      then Contribution(w, decl.superclass.value, names, child)
      else Ok(map[]);
    assert start.Ok?;
    assert ifs[..n] == ifs;
    var prior := InterfaceConversions(w, c, ifs[..n - 1], start.value, names, child);
    if prior.Err? {
      InterfaceConversionsStopAtError(w, c, n - 1, start.value, names, child);
      assert false;
    }
    InterfaceConversionsStep(w, c, n - 1, start.value, prior.value, names, child);
    ContributionOwn(w, ifs[n - 1], names, child);
  }

  /** What a direct supertype contributes includes its own redefinitions, under its own name. */
  lemma ContributionOwn(w: World, s: SuperRef, names: ClassNames, child: map<string, string>)
    requires w.Ranked() && s.erased in w.classes
    requires s.arguments.Some? ==> |s.arguments.value| <= |w.classes[s.erased].typeParameters|
    requires Contribution(w, s, names, child).Ok?
    ensures var args := if s.arguments.Some? then s.arguments.value else [];
      && Redefinitions(args, w.classes[s.erased].typeParameters, names, child, w).Ok?
      && s.erased in Contribution(w, s, names, child).value
      && Contribution(w, s, names, child).value[s.erased]
         == Redefinitions(args, w.classes[s.erased].typeParameters, names, child, w).value
  {
  }
}
