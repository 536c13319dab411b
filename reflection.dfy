/**
 * What the code generator learns from reflection and from its class-path
 * scan, written out as explicit descriptors: classes (`Class<?>`), generic
 * types (`java.lang.reflect.Type`), methods, parameters, annotations and the
 * scanned class tree, together with the world they live in (the declarations,
 * the subtype relation behind `isAssignableFrom` and the names
 * `Util.getClass` can load). A class is identified by its descriptor.
 */
module Reflection {
  import opened Wrappers
  import opened Strings

  /** A `Class<?>`: a primitive (or `void`), an array class, or a declared class or interface. */
  datatype ClassRef =
    | PrimitiveClass(keyword: string)
    | ArrayClass(component: ClassRef)
    | DeclaredClass(packageName: string, enclosing: seq<string>, simpleName: string)
  {
    /** `getTypeName()`: nested classes are joined with `$`, arrays end in `[]`. */
    function TypeNameText(): string
    {
      match this
      case PrimitiveClass(k) => k
      case ArrayClass(c) => c.TypeNameText() + "[]"
      case DeclaredClass(p, e, s) =>
        var binary := Join(e + [s], '$');
        if p == "" then binary else p + "." + binary
    }

    /** `getSimpleName()`: an array's simple name is its component's followed by `[]`. */
    function SimpleName(): string
    {
      match this
      case PrimitiveClass(k) => k
      case ArrayClass(c) => c.SimpleName() + "[]"
      case DeclaredClass(_, _, s) => s
    }

    /** `getPackageName()`: primitives live in `java.lang`, arrays in their element's package. */
    function PackageName(): string
    {
      match this
      case PrimitiveClass(_) => "java.lang"
      case ArrayClass(c) => c.PackageName()
      case DeclaredClass(p, _, _) => p
    }
  }

  const ObjectClass: ClassRef := DeclaredClass("java.lang", [], "Object")
  const VoidClass: ClassRef := PrimitiveClass("void")

  /** A `java.lang.reflect.Type`. */
  datatype Type =
    | ClassType(cls: ClassRef)
    | ParameterizedType(rawType: ClassRef, arguments: seq<Type>)
    | WildcardType(upperBound: Type, lowerBound: Option<Type>)
    | TypeVariable(name: string)
    | GenericArrayType(componentType: Type)

  /**
   * `getTypeName().equals("java.lang.Object")`: only the class itself has
   * that name (type-variable names are identifiers; parameterized, array and
   * wildcard names contain `<`, `[` or `?`).
   */
  predicate NamesObject(t: Type)
  {
    t.ClassType? && t.cls.TypeNameText() == "java.lang.Object"
  }

  /** The class `java.lang.Object` is the one type named `java.lang.Object`. */
  lemma ObjectNamesObject()
    ensures NamesObject(ClassType(ObjectClass))
  {
    assert [] + ["Object"] == ["Object"];
  }

  /** A declared type parameter `T extends B1 & B2`. */
  datatype TypeParameter = TypeParameter(name: string, bounds: seq<Type>)

  /** A declared class or interface, as every annotation type is. */
  type DeclaredRef = c: ClassRef | c.DeclaredClass? witness DeclaredClass("java.lang", [], "Object")

  /** An annotation on a method or parameter: its type and whether that type is public. */
  datatype Annotation = Annotation(annotationType: DeclaredRef, isPublic: bool)

  datatype JParameter = JParameter(name: string, erasedType: ClassRef, genericType: Type, annotations: seq<Annotation>)

  datatype JMethod = JMethod(
    name: string,
    parameters: seq<JParameter>,
    returnType: ClassRef,
    genericReturnType: Type,
    typeParameters: seq<TypeParameter>,
    annotations: seq<Annotation>,
    isStatic: bool,
    isDefault: bool)
  {
    function ParameterTypes(): (r: seq<ClassRef>)
      ensures |r| == |parameters|
      ensures forall i | 0 <= i < |r| :: r[i] == parameters[i].erasedType
    {
      seq(|parameters|, i requires 0 <= i < |parameters| => parameters[i].erasedType)
    }

    function ParameterNames(): (r: seq<string>)
      ensures |r| == |parameters|
      ensures forall i | 0 <= i < |r| :: r[i] == parameters[i].name
    {
      seq(|parameters|, i requires 0 <= i < |parameters| => parameters[i].name)
    }
  }

  datatype ClassKind = Interface | Record | Enum | PlainClass

  /**
   * A direct supertype as `getGenericSuperclass()` / `getGenericInterfaces()`
   * return it: the erased class, and its type arguments exactly when it is a
   * `ParameterizedType`.
   */
  datatype SuperRef = SuperRef(erased: ClassRef, arguments: Option<seq<Type>>)

  /** The declaration of a class or interface. */
  datatype JClass = JClass(
    kind: ClassKind,
    typeParameters: seq<string>,
    superclass: Option<SuperRef>,
    interfaces: seq<SuperRef>,
    declaredMethods: seq<JMethod>,
    methods: seq<JMethod>)

  /** A class found by the class-path scan, with the classes nested in it. */
  datatype ClassInfo = ClassInfo(cls: ClassRef, visible: bool, isInner: bool, isAnonymous: bool, inner: seq<ClassInfo>)

  /**
   * Everything reflection can answer: the declarations, a rank on them that
   * witnesses that inheritance is acyclic (as the JVM guarantees), the pairs
   * `(a, b)` with `a.isAssignableFrom(b)` for distinct `a` and `b`, and a
   * map from each name `Util.getClass` resolves to the class it returns.
   */
  datatype World = World(
    classes: map<ClassRef, JClass>,
    depth: map<ClassRef, nat>,
    assignable: set<(ClassRef, ClassRef)>,
    loadable: map<string, ClassRef>)
  {
    /** `a.isAssignableFrom(b)`, which every class is of itself. */
    predicate AssignableFrom(a: ClassRef, b: ClassRef)
    {
      a == b || (a, b) in assignable
    }

    /** `s` is not `Object`, is declared, is ranked below `c`, and has at least as many type parameters as it is given arguments. */
    predicate RankedBelow(c: ClassRef, s: SuperRef)
    {
      && c in depth && s.erased != ObjectClass && s.erased in classes && s.erased in depth && depth[s.erased] < depth[c]
      && (s.arguments.Some? ==> |s.arguments.value| <= |classes[s.erased].typeParameters|)
    }

    /** Every supertype the type-variable walk follows lies strictly lower in the hierarchy. */
    predicate Ranked()
    {
      && (forall c | c in classes :: c in depth)
      && (forall c | c in classes && classes[c].superclass.Some? && classes[c].superclass.value.arguments.Some? ::
            RankedBelow(c, classes[c].superclass.value))
      && (forall c, i | c in classes && 0 <= i < |classes[c].interfaces| :: RankedBelow(c, classes[c].interfaces[i]))
    }
  }

  /** Everything the generator can throw. */
  datatype Failure =
    | NoGuess(text: string)          // ClassName.bestGuess: IllegalArgumentException
    | NoTypeArguments                // ParameterizedTypeName: IllegalArgumentException
    | InvalidTypeArgument            // a primitive or void as a type argument
    | InvalidBound                   // a primitive or void as a bound
    | IndexOutOfBounds               // `getTypeNames(...)[0]` on an empty result
    | MissingClassName(cls: ClassRef) // `classNames.get(c)` is null
    | MissingSuperclass              // `getSuperclass()` is null
    | EnumWithoutConstants(name: string) // TypeSpec.Builder.build: an enum needs a constant
}
