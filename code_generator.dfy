/**
 * The generator proper (`CodeGenerator`): it names a mirror for every
 * scanned class, then writes, class by class and nested classes first, one
 * public mirror type per class whose methods delegate to `MirrorHandler`,
 * and for a mirrored interface an `...Impl` class implementing it. The
 * output folder is the sequence of files written, in order.
 */
module Generator {
  import opened Wrappers
  import opened Strings
  import opened Reflection
  import opened Poet
  import opened TypeUtil
  import opened Naming
  import opened Selection
  import Methods

  // ---------------------------------------------------------------------
  // Names of classes, annotations and parameters
  // ---------------------------------------------------------------------

  /**
   * The invariant of the generator's `classNames`: every mirrored class
   * lives in a package with a mirror package, is named by its mirror simple
   * name, is top-level, and sits in (a sub-package of) that mirror package.
   */
  predicate MirrorNames(target: string, names: ClassNames)
  {
    forall c | c in names ::
      && GetModifiedPackage(target, c.PackageName()).Some?
      && names[c].simpleName == ModifySimpleClassName(c.SimpleName())
      && names[c].enclosing == []
      && StartsWith(names[c].packageName, GetModifiedPackage(target, c.PackageName()).value)
  }

  /** `sanitizeClass`: a class with a mirror is named by its mirror, any other class by `TypeName.get`. */
  function SanitizeClass(names: ClassNames, c: ClassRef): (r: TypeName)
    ensures c in names ==> r == Named(names[c])
    ensures c !in names ==> r == Get(c)
  {
    if c in names then Named(names[c]) else Get(c)
  }

  /** Under the invariant, a mirrored class is named by its mirror simple name inside its mirror package. */
  lemma SanitizedMirror(target: string, names: ClassNames, c: ClassRef)
    requires MirrorNames(target, names) && c in names
    ensures SanitizeClass(names, c).Named?
    ensures SanitizeClass(names, c).cls.simpleName == ModifySimpleClassName(c.SimpleName())
    ensures StartsWith(SanitizeClass(names, c).cls.packageName, GetModifiedPackage(target, c.PackageName()).value)
  {
  }

  /** `AnnotationSpec.builder(type)`: the annotation type's class name, which `TypeName.get` names too. */
  function AnnotationClassName(c: DeclaredRef): (r: ClassName)
    ensures Get(c) == Named(r)
  {
    ClassName(c.packageName, c.enclosing, c.simpleName)
  }

  /**
   * The annotations `getAnnotationSpec` copies: the public ones outside
   * `jdk.internal`, by class name, in order.
   */
  function AnnotationNames(annotations: seq<Annotation>): (r: seq<ClassName>)
    ensures |r| <= |annotations|
  {
    if annotations == [] then []
    else
      var prior := AnnotationNames(annotations[..|annotations| - 1]);
      var a := annotations[|annotations| - 1];
      if Copied(a) then prior + [AnnotationClassName(a.annotationType)] else prior
  }

  /** `n` is the class name of some annotation in the list that `getAnnotationSpec` copies. */
  predicate NameOfCopied(annotations: seq<Annotation>, n: ClassName)
  {
    exists j | 0 <= j < |annotations| :: Copied(annotations[j]) && Get(annotations[j].annotationType) == Named(n)
  }

  /**
   * Exactly the copied annotations give names: every name is the class name
   * of a copied annotation, and every copied annotation's class name is
   * there; all of them copied give one name each, none copied gives none.
   */
  lemma {:induction false} AnnotationNamesFrom(annotations: seq<Annotation>)
    ensures var r := AnnotationNames(annotations);
      && (forall i | 0 <= i < |r| :: NameOfCopied(annotations, r[i]))
      && (forall j | 0 <= j < |annotations| && Copied(annotations[j]) ::
           AnnotationClassName(annotations[j].annotationType) in r)
      && ((forall j | 0 <= j < |annotations| :: Copied(annotations[j])) ==> |r| == |annotations|)
      && ((forall j | 0 <= j < |annotations| :: !Copied(annotations[j])) ==> r == [])
  {
    if annotations != [] {
      var init := annotations[..|annotations| - 1];
      var a := annotations[|annotations| - 1];
      var prior := AnnotationNames(init);
      var r := AnnotationNames(annotations);
      AnnotationNamesFrom(init);
      assert forall j | 0 <= j < |init| :: init[j] == annotations[j];
      assert r == prior + [AnnotationClassName(a.annotationType)] || r == prior;
      forall i | 0 <= i < |r|
        ensures NameOfCopied(annotations, r[i])
      {
        if i < |prior| {
          assert r[i] == prior[i];
          assert NameOfCopied(init, prior[i]);
          var j :| 0 <= j < |init| && Copied(init[j]) && Get(init[j].annotationType) == Named(prior[i]);
          assert annotations[j] == init[j];
        } else {
          assert Copied(a) && r[i] == AnnotationClassName(a.annotationType);
          assert annotations[|annotations| - 1] == a;
        }
      }
      forall j | 0 <= j < |annotations| && Copied(annotations[j])
        ensures AnnotationClassName(annotations[j].annotationType) in r
      {
        if j < |init| {
          assert AnnotationClassName(init[j].annotationType) in prior;
        }
      }
    }
  }

  /** `getAnnotationSpec`: the loop that skips `jdk.internal` and non-public annotation types. */
  method GetAnnotationSpec(annotations: seq<Annotation>) returns (output: seq<ClassName>)
    ensures output == AnnotationNames(annotations)
  {
    output := [];
    var i := 0;
    while i < |annotations|
      invariant 0 <= i <= |annotations|
      invariant output == AnnotationNames(annotations[..i])
    {
      var a := annotations[i];
      assert annotations[..i + 1][..i] == annotations[..i];
      if StartsWith(a.annotationType.PackageName(), "jdk.internal") {
      } else if !a.isPublic {
      } else {
        output := output + [AnnotationClassName(a.annotationType)];
      }
      i := i + 1;
    }
    assert annotations[..|annotations|] == annotations;
  }

  /** One entry of `getParameterSpec`: the sanitized erased type, the name and the copied annotations. */
  function ParameterSpecOf(names: ClassNames, p: JParameter): ParameterSpec
  {
    ParameterSpec(SanitizeClass(names, p.erasedType), p.name, AnnotationNames(p.annotations))
  }

  /** The specs of `getParameterSpec`, one per parameter, in order. */
  function ParameterSpecsOf(names: ClassNames, ps: seq<JParameter>): (r: seq<ParameterSpec>)
    ensures |r| == |ps| && forall i | 0 <= i < |ps| :: r[i] == ParameterSpecOf(names, ps[i])
  {
    seq(|ps|, i requires 0 <= i < |ps| => ParameterSpecOf(names, ps[i]))
  }

  /** `generateParameterString`: `", " + name` for each parameter; empty exactly when there are none. */
  method GenerateParameterString(m: JMethod) returns (s: string)
    ensures s == ArgumentList(m.ParameterNames())
    ensures m.parameters == [] <==> s == ""
  {
    var names := m.ParameterNames();
    s := "";
    var i := 0;
    while i < |m.parameters|
      invariant 0 <= i <= |m.parameters|
      invariant s == ArgumentList(names[..i])
    {
      assert names[..i + 1][..i] == names[..i];
      s := s + ", " + m.parameters[i].name;
      i := i + 1;
    }
    assert names[..|names|] == names;
    Methods.ArgumentListShape(names);
  }

  // ---------------------------------------------------------------------
  // Methods of a mirror
  // ---------------------------------------------------------------------

  /**
   * The spec `generateMethods` builds for one reflected method: a static
   * method is public static and delegates with `<className>.class`; in an
   * abstract (interface) mirror any other method is public abstract with no
   * body; otherwise it is public and delegates with `this`. The handler
   * returns a value unless the method returns `void`.
   */
  function MirrorMethod(names: ClassNames, m: JMethod, isAbstract: bool, className: string): MethodSpec
  {
    var parameters := ParameterSpecsOf(names, m.parameters);
    var returnsValue := m.returnType != VoidClass;
    var arguments := ArgumentList(m.ParameterNames());
    var chosen: (set<Modifier>, Option<Statement>) :=
      if m.isStatic then ({Public, Static}, Some(Delegate(returnsValue, MirrorHandler, m.name, className + ".class" + arguments)))
      else if isAbstract then ({Public, Abstract}, None)
      else ({Public}, Some(Delegate(returnsValue, MirrorHandler, m.name, "this" + arguments)));
    MethodSpec(m.name, AnnotationNames(m.annotations), parameters, SanitizeClass(names, m.returnType), [], chosen.0, chosen.1)
  }

  /** What a mirrored method looks like, and which of its parts depend on what. */
  lemma MirrorMethodShape(names: ClassNames, m: JMethod, isAbstract: bool, className: string)
    ensures var r := MirrorMethod(names, m, isAbstract, className);
      && r.name == m.name && r.typeVariables == [] && r.returnType == SanitizeClass(names, m.returnType)
      && |r.parameters| == |m.parameters|
      && Public in r.modifiers && Default !in r.modifiers
      && (Static in r.modifiers <==> m.isStatic)
      && (Abstract in r.modifiers <==> !m.isStatic && isAbstract)
      && (r.statement.None? <==> Abstract in r.modifiers)
    ensures var r := MirrorMethod(names, m, isAbstract, className);
      r.statement.Some? ==>
      && r.statement.value.handler == MirrorHandler
      && r.statement.value.methodName == m.name
      && (r.statement.value.returnsValue <==> m.returnType != VoidClass)
      && r.statement.value.arguments == (if m.isStatic then className + ".class" else "this") + ArgumentList(m.ParameterNames())
  {
  }

  /** The `k`-th method survives: it is not banned for the kind and no other method stands for it. */
  predicate Selected(w: World, methods: seq<JMethod>, kind: ClassKind, k: nat)
    requires k < |methods|
  {
    !IsMethodBanned(methods[k], kind) && !Suppressed(w, methods, k)
  }

  /** The test at the head of `generateMethods`' loop: `isMethodBanned(...) || ignoreMethod(...)`. */
  method Skipped(w: World, methods: seq<JMethod>, kind: ClassKind, k: nat) returns (skip: bool)
    requires k < |methods|
    ensures skip <==> !Selected(w, methods, kind, k)
  {
    skip := IsMethodBanned(methods[k], kind);
    if !skip {
      skip := IgnoreMethod(w, methods, k);
    }
  }

  /** The specs `generateMethods` emits for the first `n` methods, in order. */
  function MirrorMethods(names: ClassNames, w: World, methods: seq<JMethod>, kind: ClassKind, isAbstract: bool,
                         className: string, n: nat): (r: seq<MethodSpec>)
    requires n <= |methods|
    ensures |r| <= n
  {
    if n == 0 then []
    else
      var prior := MirrorMethods(names, w, methods, kind, isAbstract, className, n - 1);
      if Selected(w, methods, kind, n - 1) then prior + [MirrorMethod(names, methods[n - 1], isAbstract, className)]
      else prior
  }

  /** One more method: its spec follows the earlier ones exactly when it is selected. */
  lemma MirrorMethodsStep(names: ClassNames, w: World, methods: seq<JMethod>, kind: ClassKind, isAbstract: bool,
                          className: string, k: nat)
    requires k < |methods|
    ensures MirrorMethods(names, w, methods, kind, isAbstract, className, k + 1)
      == MirrorMethods(names, w, methods, kind, isAbstract, className, k)
         + (if Selected(w, methods, kind, k) then [MirrorMethod(names, methods[k], isAbstract, className)] else [])
  {
  }

  /** Every selected method among the first `n` has its spec among the first `n` specs. */
  lemma {:induction false} SelectedMirrored(names: ClassNames, w: World, methods: seq<JMethod>, kind: ClassKind,
                                            isAbstract: bool, className: string, n: nat, k: nat)
    requires k < n <= |methods| && Selected(w, methods, kind, k)
    ensures MirrorMethod(names, methods[k], isAbstract, className) in MirrorMethods(names, w, methods, kind, isAbstract, className, n)
  {
    var spec := MirrorMethod(names, methods[k], isAbstract, className);
    LastMirrored(names, w, methods, kind, isAbstract, className, k);
    assert spec in MirrorMethods(names, w, methods, kind, isAbstract, className, k + 1);
    MirroredStays(names, w, methods, kind, isAbstract, className, k + 1, n, spec);
  }

  /** A spec among the first `m` specs stays among the first `n` for any `n` from `m` on. */
  lemma {:induction false} MirroredStays(names: ClassNames, w: World, methods: seq<JMethod>, kind: ClassKind,
                                         isAbstract: bool, className: string, m: nat, n: nat, s: MethodSpec)
    requires m <= n <= |methods| && s in MirrorMethods(names, w, methods, kind, isAbstract, className, m)
    ensures s in MirrorMethods(names, w, methods, kind, isAbstract, className, n)
    decreases n - m
  {
    if m < n {
      EarlierMirrored(names, w, methods, kind, isAbstract, className, m, s);
      MirroredStays(names, w, methods, kind, isAbstract, className, m + 1, n, s);
    }
  }

  /** A selected method's spec is the last of the specs up to it. */
  lemma LastMirrored(names: ClassNames, w: World, methods: seq<JMethod>, kind: ClassKind, isAbstract: bool,
                     className: string, k: nat)
    requires k < |methods| && Selected(w, methods, kind, k)
    ensures MirrorMethod(names, methods[k], isAbstract, className) in MirrorMethods(names, w, methods, kind, isAbstract, className, k + 1)
  {
    MirrorMethodsStep(names, w, methods, kind, isAbstract, className, k);
    var prior := MirrorMethods(names, w, methods, kind, isAbstract, className, k);
    var spec := MirrorMethod(names, methods[k], isAbstract, className);
    assert (prior + [spec])[|prior|] == spec;
  }

  /** A spec among the first `k` stays among the first `k + 1`. */
  lemma EarlierMirrored(names: ClassNames, w: World, methods: seq<JMethod>, kind: ClassKind, isAbstract: bool,
                        className: string, k: nat, s: MethodSpec)
    requires k < |methods| && s in MirrorMethods(names, w, methods, kind, isAbstract, className, k)
    ensures s in MirrorMethods(names, w, methods, kind, isAbstract, className, k + 1)
  {
    MirrorMethodsStep(names, w, methods, kind, isAbstract, className, k);
  }

  /** Every spec among the first `n` is that of a selected method among the first `n`. */
  lemma {:induction false} MirroredSelected(names: ClassNames, w: World, methods: seq<JMethod>, kind: ClassKind,
                                            isAbstract: bool, className: string, n: nat, s: MethodSpec)
    returns (k: nat)
    requires n <= |methods| && s in MirrorMethods(names, w, methods, kind, isAbstract, className, n)
    ensures k < n && Selected(w, methods, kind, k) && s == MirrorMethod(names, methods[k], isAbstract, className)
  {
    var prior := MirrorMethods(names, w, methods, kind, isAbstract, className, n - 1);
    MirrorMethodsStep(names, w, methods, kind, isAbstract, className, n - 1);
    if s in prior {
      k := MirroredSelected(names, w, methods, kind, isAbstract, className, n - 1, s);
    } else {
      k := n - 1;
    }
  }

  /** Which methods `generateMethods` reads: the declared ones for an abstract mirror, all public ones otherwise. */
  function MethodsOf(decl: JClass, isAbstract: bool): seq<JMethod>
  {
    if isAbstract then decl.declaredMethods else decl.methods
  }

  /** An unbanned method whose signature no other method shares is always mirrored. */
  lemma UniqueMethodMirrored(names: ClassNames, w: World, methods: seq<JMethod>, kind: ClassKind, isAbstract: bool,
                             className: string, k: nat)
    requires k < |methods| && !IsMethodBanned(methods[k], kind)
    requires forall j | 0 <= j < |methods| && j != k :: !SameSignature(methods[j], methods[k])
    ensures MirrorMethod(names, methods[k], isAbstract, className)
      in MirrorMethods(names, w, methods, kind, isAbstract, className, |methods|)
  {
    UniqueSignatureKept(w, methods, k);
    SelectedMirrored(names, w, methods, kind, isAbstract, className, |methods|, k);
  }

  /** A banned method contributes nothing: every spec comes from a method that is not banned. */
  lemma BannedNotMirrored(names: ClassNames, w: World, methods: seq<JMethod>, kind: ClassKind, isAbstract: bool,
                          className: string, s: MethodSpec)
    requires s in MirrorMethods(names, w, methods, kind, isAbstract, className, |methods|)
    ensures exists k | 0 <= k < |methods| :: !IsMethodBanned(methods[k], kind) && s.name == methods[k].name
  {
    var k := MirroredSelected(names, w, methods, kind, isAbstract, className, |methods|, s);
  }

  /** Every instance method of an interface mirror is abstract and has no body. */
  lemma InterfaceMethodsAbstract(names: ClassNames, w: World, methods: seq<JMethod>, className: string, s: MethodSpec)
    requires s in MirrorMethods(names, w, methods, Interface, true, className, |methods|)
    requires Static !in s.modifiers
    ensures s.modifiers == {Public, Abstract} && s.statement.None?
  {
    var k := MirroredSelected(names, w, methods, Interface, true, className, |methods|, s);
    MirrorMethodShape(names, methods[k], true, className);
    assert forall x: Modifier :: x in s.modifiers <==> x == Public || x == Abstract by {
      forall x: Modifier
        ensures x in s.modifiers <==> x == Public || x == Abstract
      {
        match x
        case Public =>
        case Static =>
        case Abstract =>
        case Default =>
      }
    }
  }

  /**
   * The generator and `MethodData.toMethodSpec` agree on a method that is not
   * a default method: the same name and modifiers, a body exactly together,
   * and the same arguments passed to the handler.
   */
  lemma AgreesWithMethodData(names: ClassNames, m: JMethod, isAbstract: bool, conversions: map<string, string>,
                             w: World, className: string)
    requires !m.isDefault
    requires Methods.From(m, names, isAbstract, conversions, w).Ok?
    requires Methods.ToMethodSpec(Methods.From(m, names, isAbstract, conversions, w).value, className).Ok?
    ensures var a := MirrorMethod(names, m, isAbstract, className);
      var b := Methods.ToMethodSpec(Methods.From(m, names, isAbstract, conversions, w).value, className).value;
      && a.name == b.name
      && a.modifiers == b.modifiers
      && (a.statement.None? <==> b.statement.None?)
      && (a.statement.Some? ==> a.statement.value.arguments == b.statement.value.arguments)
  {
    var md := Methods.From(m, names, isAbstract, conversions, w).value;
    var a := MirrorMethod(names, m, isAbstract, className);
    var b := Methods.ToMethodSpec(md, className).value;
    MirrorMethodShape(names, m, isAbstract, className);
    assert Methods.ParameterNames(md.parameterData) == m.ParameterNames();
    forall x: Modifier
      ensures x in a.modifiers <==> x in b.modifiers
    {
      match x
      case Public =>
      case Static =>
      case Abstract =>
      case Default =>
    }
  }

  // ---------------------------------------------------------------------
  // Files of a mirror
  // ---------------------------------------------------------------------

  /** A package one of the operation-included packages starts. */
  predicate InIncludedPackage(packageName: string)
  {
    exists i | 0 <= i < |IncludedPackages| :: StartsWith(packageName, IncludedPackages[i])
  }

  /** The loop of `generateInterface` over the included packages, which stops at the first prefix. */
  method StartsWithIncluded(packageName: string) returns (b: bool)
    ensures b <==> InIncludedPackage(packageName)
  {
    var packages := IncludedPackages;
    var i := 0;
    while i < |packages|
      invariant 0 <= i <= |packages|
      invariant forall j | 0 <= j < i :: !StartsWith(packageName, packages[j])
    {
      if StartsWith(packageName, packages[i]) {
        return true;
      }
      i := i + 1;
    }
    return false;
  }

  /**
   * The superclass of a mirror: only a plain class has one, and only when
   * its superclass is not `Object` and lies in an included package; a plain
   * class without a superclass fails.
   */
  function SuperclassOf(names: ClassNames, decl: JClass): (r: Result<Option<TypeName>, Failure>)
    ensures r.Err? <==> decl.kind == PlainClass && decl.superclass.None?
    ensures r.Ok? && r.value.Some? <==>
      && decl.kind == PlainClass && decl.superclass.Some?
      && decl.superclass.value.erased != ObjectClass
      && InIncludedPackage(decl.superclass.value.erased.PackageName())
    ensures r.Ok? && r.value.Some? ==> r.value.value == SanitizeClass(names, decl.superclass.value.erased)
  {
    if decl.kind != PlainClass then Ok(None)
    else if decl.superclass.None? then Err(MissingSuperclass)
    else
      var s := decl.superclass.value.erased;
      if s != ObjectClass && InIncludedPackage(s.PackageName()) then Ok(Some(SanitizeClass(names, s))) else Ok(None)
  }

  /** The superinterfaces of a mirror: the class's interfaces, sanitized, in order. */
  function Superinterfaces(names: ClassNames, decl: JClass): (r: seq<TypeName>)
    ensures |r| == |decl.interfaces|
    ensures forall i | 0 <= i < |r| :: r[i] == SanitizeClass(names, decl.interfaces[i].erased)
  {
    seq(|decl.interfaces|, i requires 0 <= i < |decl.interfaces| => SanitizeClass(names, decl.interfaces[i].erased))
  }

  /**
   * The file `generateInterface` writes for class `c`: the public mirror
   * type of the class's kind, named and placed by the class's mirror name,
   * with the mirrored methods, the sanitized interfaces and, for a plain
   * class, its superclass. A class without a mirror name fails, and so does
   * every enum: its mirror is built without enum constants, which JavaPoet's
   * `TypeSpec.Builder.build` refuses.
   */
  function InterfaceFile(names: ClassNames, w: World, c: ClassRef): (r: Result<JavaFile, Failure>)
    requires c in w.classes
    ensures r.Ok? ==> c in names
    ensures c !in names ==> r == Err(MissingClassName(c))
    ensures r.Ok? ==>
      && r.value.packageName == names[c].packageName
      && r.value.typeSpec.name == names[c].simpleName
      && r.value.typeSpec.kind == w.classes[c].kind
      && r.value.typeSpec.modifiers == {Public}
    ensures c in names && w.classes[c].kind == Enum ==> r == Err(EnumWithoutConstants(names[c].simpleName))
  {
    if c !in names then Err(MissingClassName(c))
    else
      var decl := w.classes[c];
      var isAbstract := decl.kind == Interface;
      var methods := MethodsOf(decl, isAbstract);
      var superclass :- SuperclassOf(names, decl);
      var cn := names[c];
      if decl.kind == Enum then Err(EnumWithoutConstants(cn.simpleName))
      else Ok(JavaFile(cn.packageName, TypeSpec(decl.kind, cn.simpleName, {Public},
                                           MirrorMethods(names, w, methods, decl.kind, isAbstract, cn.simpleName, |methods|),
                                           Superinterfaces(names, decl), superclass)))
  }

  /**
   * The file `generateImplementation` writes for class `c`: a class named
   * after the mirror with `Impl` appended, in the mirror's package,
   * implementing the mirror, with no modifiers and non-abstract methods
   * over all of the class's public methods.
   */
  function ImplementationFile(names: ClassNames, w: World, c: ClassRef): (r: JavaFile)
    requires c in w.classes && c in names
    ensures r.packageName == names[c].packageName
    ensures r.typeSpec.name == names[c].simpleName + "Impl"
    ensures r.typeSpec.superinterfaces == [Named(names[c])] && r.typeSpec.superclass.None?
    ensures r.typeSpec.modifiers == {}
  {
    var decl := w.classes[c];
    var cn := names[c];
    var simplified := cn.simpleName + "Impl";
    JavaFile(cn.packageName, TypeSpec(PlainClass, simplified, {},
                                      MirrorMethods(names, w, decl.methods, decl.kind, false, simplified, |decl.methods|),
                                      [Named(cn)], None))
  }

  /**
   * A mirror is named after its class and sits in its class's mirror
   * package; the implementation of a class whose simple name has no `[`
   * takes a name no mirror has.
   */
  lemma MirrorFilesNamed(target: string, names: ClassNames, w: World, c: ClassRef)
    requires MirrorNames(target, names) && c in w.classes
    requires InterfaceFile(names, w, c).Ok?
    ensures InterfaceFile(names, w, c).value.typeSpec.name == ModifySimpleClassName(c.SimpleName())
    ensures StartsWith(InterfaceFile(names, w, c).value.packageName, GetModifiedPackage(target, c.PackageName()).value)
    ensures '[' !in c.SimpleName() ==> forall d | d in names ::
      ImplementationFile(names, w, c).typeSpec.name != names[d].simpleName
  {
    if '[' !in c.SimpleName() {
      forall d | d in names
        ensures ImplementationFile(names, w, c).typeSpec.name != names[d].simpleName
      {
        ImplementationNameIsNoMirrorName(c.SimpleName(), d.SimpleName());
      }
    }
  }

  // ---------------------------------------------------------------------
  // The files of a scanned class tree
  // ---------------------------------------------------------------------

  /** A single scanned class: its classes and size are its own and its nested classes'. */
  lemma SingleClass(info: ClassInfo)
    ensures Classes([info]) == Classes(info.inner) + {info.cls}
    ensures InfoSize([info]) == 1 + InfoSize(info.inner)
  {
    assert [info][..0] == [];
  }

  /** Each scanned class of a forest, with what is nested in it, is part of the forest. */
  lemma {:induction false} ClassesElement(infos: seq<ClassInfo>, i: nat)
    requires i < |infos|
    ensures Classes([infos[i]]) <= Classes(infos)
    ensures InfoSize([infos[i]]) <= InfoSize(infos)
    decreases |infos|
  {
    SingleClass(infos[i]);
    if i < |infos| - 1 {
      var prefix := infos[..|infos| - 1];
      assert prefix[i] == infos[i];
      ClassesElement(prefix, i);
    }
  }

  /** The classes of two forests side by side. */
  lemma {:induction false} ClassesAppend(a: seq<ClassInfo>, b: seq<ClassInfo>)
    ensures Classes(a + b) == Classes(a) + Classes(b)
    decreases |b|
  {
    if b == [] {
      assert a + b == a;
    } else {
      ClassesAppend(a, b[..|b| - 1]);
      assert (a + b)[..|a + b| - 1] == a + b[..|b| - 1];
      assert (a + b)[|a + b| - 1] == b[|b| - 1];
    }
  }

  /**
   * `fillClass(info)`: the files of the visible, non-anonymous nested
   * classes, each with its own nested classes first, then the class's
   * mirror and, for an interface, its implementation. The first failure
   * ends the run.
   */
  function Output(names: ClassNames, w: World, info: ClassInfo): (r: Result<seq<JavaFile>, Failure>)
    requires Classes([info]) <= w.classes.Keys
    ensures r.Ok? ==> |r.value| >= 1 && InterfaceFile(names, w, info.cls).Ok?
    decreases InfoSize([info]), 0
  {
    SingleClass(info);
    var nested :- NestedOutput(names, w, info.inner);
    var own :- InterfaceFile(names, w, info.cls);
    if w.classes[info.cls].kind == Interface then Ok(nested + [own, ImplementationFile(names, w, info.cls)])
    else Ok(nested + [own])
  }

  /** The loop of `fillClass` over nested classes, skipping invisible and anonymous ones. */
  function NestedOutput(names: ClassNames, w: World, infos: seq<ClassInfo>): (r: Result<seq<JavaFile>, Failure>)
    requires Classes(infos) <= w.classes.Keys
    decreases InfoSize(infos), 1
  {
    if infos == [] then Ok([])
    else
      var last := infos[|infos| - 1];
      var prior :- NestedOutput(names, w, infos[..|infos| - 1]);
      ClassesElement(infos, |infos| - 1);
      if last.visible && !last.isAnonymous then
        var own :- Output(names, w, last);
        Ok(prior + own)
      else Ok(prior)
  }

  /** One more nested class: its files follow those of the earlier ones, unless it is skipped. */
  lemma NestedOutputStep(names: ClassNames, w: World, infos: seq<ClassInfo>, i: nat)
    requires i < |infos| && Classes(infos) <= w.classes.Keys
    requires Classes(infos[..i + 1]) <= w.classes.Keys && Classes(infos[..i]) <= w.classes.Keys
    requires Classes([infos[i]]) <= w.classes.Keys
    requires NestedOutput(names, w, infos[..i]).Ok?
    ensures !(infos[i].visible && !infos[i].isAnonymous) ==> NestedOutput(names, w, infos[..i + 1]) == NestedOutput(names, w, infos[..i])
    ensures infos[i].visible && !infos[i].isAnonymous ==>
      && (NestedOutput(names, w, infos[..i + 1]).Ok? <==> Output(names, w, infos[i]).Ok?)
      && (Output(names, w, infos[i]).Err? ==> NestedOutput(names, w, infos[..i + 1]).error == Output(names, w, infos[i]).error)
      && (Output(names, w, infos[i]).Ok? ==>
            NestedOutput(names, w, infos[..i + 1]).value == NestedOutput(names, w, infos[..i]).value + Output(names, w, infos[i]).value)
  {
    assert infos[..i + 1][..i] == infos[..i];
    assert infos[..i + 1][i] == infos[i];
  }

  /** One more top-level class: its files follow those of the earlier ones. */
  lemma EachOutputStep(names: ClassNames, w: World, infos: seq<ClassInfo>, i: nat)
    requires i < |infos|
    requires Classes(infos[..i + 1]) <= w.classes.Keys && Classes(infos[..i]) <= w.classes.Keys
    requires Classes([infos[i]]) <= w.classes.Keys
    requires EachOutput(names, w, infos[..i]).Ok?
    ensures EachOutput(names, w, infos[..i + 1]).Ok? <==> Output(names, w, infos[i]).Ok?
    ensures Output(names, w, infos[i]).Err? ==> EachOutput(names, w, infos[..i + 1]).error == Output(names, w, infos[i]).error
    ensures Output(names, w, infos[i]).Ok? ==>
      EachOutput(names, w, infos[..i + 1]).value == EachOutput(names, w, infos[..i]).value + Output(names, w, infos[i]).value
  {
    assert infos[..i + 1][..i] == infos[..i];
    assert infos[..i + 1][i] == infos[i];
  }

  /** The files written before are still the first ones. */
  predicate Extends(files: seq<JavaFile>, start: seq<JavaFile>)
  {
    |start| <= |files| && files[..|start|] == start
  }

  /** Appending keeps what was written before. */
  lemma ExtendsAppend(start: seq<JavaFile>, more: seq<JavaFile>)
    ensures Extends(start + more, start)
  {
    assert (start + more)[..|start|] == start;
  }

  /** Keeping a sequence that kept `start` keeps `start`. */
  lemma ExtendsTrans(files: seq<JavaFile>, mid: seq<JavaFile>, start: seq<JavaFile>)
    requires Extends(files, mid) && Extends(mid, start)
    ensures Extends(files, start)
  {
    assert files[..|start|] == files[..|mid|][..|start|];
  }

  /** Appending files in two steps writes what appending them at once does. */
  lemma AppendAssociates(a: seq<JavaFile>, b: seq<JavaFile>, c: seq<JavaFile>)
    ensures (a + b) + c == a + (b + c)
  {
  }

  /** A class without a mirror name fails its run, whatever is nested in it. */
  lemma UnnamedClassFails(names: ClassNames, w: World, info: ClassInfo)
    requires Classes([info]) <= w.classes.Keys && info.cls !in names
    ensures Output(names, w, info).Err?
  {
  }

  /** An enum with a mirror name fails its run: its mirror has no enum constants. */
  lemma EnumClassFails(names: ClassNames, w: World, info: ClassInfo)
    requires Classes([info]) <= w.classes.Keys && info.cls in names && w.classes[info.cls].kind == Enum
    ensures Output(names, w, info).Err?
    ensures NestedOutput(names, w, info.inner).Ok? ==>
      Output(names, w, info).error == EnumWithoutConstants(names[info.cls].simpleName)
  {
    SingleClass(info);
  }

  /** An interface's run ends with its mirror and then its implementation; any other class's with its mirror alone. */
  lemma OwnFilesLast(names: ClassNames, w: World, info: ClassInfo)
    requires Classes([info]) <= w.classes.Keys && Output(names, w, info).Ok?
    ensures var files := Output(names, w, info).value;
      var own := InterfaceFile(names, w, info.cls).value;
      if w.classes[info.cls].kind == Interface then
        |files| >= 2 && files[|files| - 2] == own && files[|files| - 1] == ImplementationFile(names, w, info.cls)
      else files[|files| - 1] == own
  {
    SingleClass(info);
  }

  /** Once a prefix of the nested classes fails, the whole loop fails the same way. */
  lemma {:induction false} NestedErrorPersists(names: ClassNames, w: World, infos: seq<ClassInfo>, n: nat)
    requires n <= |infos| && Classes(infos) <= w.classes.Keys
    requires Classes(infos[..n]) <= w.classes.Keys
    requires NestedOutput(names, w, infos[..n]).Err?
    ensures NestedOutput(names, w, infos) == NestedOutput(names, w, infos[..n])
    decreases |infos| - n
  {
    if n < |infos| {
      var next := infos[..n + 1];
      assert next[..n] == infos[..n];
      ClassesAppend(infos[..n + 1], infos[n + 1..]);
      assert infos == infos[..n + 1] + infos[n + 1..];
      NestedErrorPersists(names, w, infos, n + 1);
    } else {
      assert infos[..n] == infos;
    }
  }

  /** The prefix of a forest has no more classes than the forest. */
  lemma PrefixClasses(infos: seq<ClassInfo>, n: nat)
    requires n <= |infos|
    ensures Classes(infos[..n]) <= Classes(infos)
  {
    ClassesAppend(infos[..n], infos[n..]);
    assert infos == infos[..n] + infos[n..];
  }

  /** The classes `fillClassesInPackage` keeps: the visible ones that are not inner classes. */
  function TopLevel(infos: seq<ClassInfo>): (r: seq<ClassInfo>)
    ensures |r| <= |infos|
    ensures forall x :: x in r <==> x in infos && x.visible && !x.isInner
  {
    if infos == [] then []
    else
      var last := infos[|infos| - 1];
      var prior := TopLevel(infos[..|infos| - 1]);
      assert infos == infos[..|infos| - 1] + [last];
      if last.visible && !last.isInner then prior + [last] else prior
  }

  /** Filtering keeps no class that was not scanned. */
  lemma {:induction false} TopLevelClasses(infos: seq<ClassInfo>)
    ensures Classes(TopLevel(infos)) <= Classes(infos)
    decreases |infos|
  {
    if infos != [] {
      var last := infos[|infos| - 1];
      var prefix := infos[..|infos| - 1];
      TopLevelClasses(prefix);
      if last.visible && !last.isInner {
        ClassesAppend(TopLevel(prefix), [last]);
        SingleClass(last);
      }
    }
  }

  /** `outerClasses.forEach(fillClass)`: every top-level class in turn, stopping at the first failure. */
  function EachOutput(names: ClassNames, w: World, infos: seq<ClassInfo>): (r: Result<seq<JavaFile>, Failure>)
    requires Classes(infos) <= w.classes.Keys
  {
    if infos == [] then Ok([])
    else
      var prior :- EachOutput(names, w, infos[..|infos| - 1]);
      ClassesElement(infos, |infos| - 1);
      var own :- Output(names, w, infos[|infos| - 1]);
      Ok(prior + own)
  }

  /** Once a prefix of the top-level classes fails, the whole run fails the same way. */
  lemma {:induction false} EachErrorPersists(names: ClassNames, w: World, infos: seq<ClassInfo>, n: nat)
    requires n <= |infos| && Classes(infos) <= w.classes.Keys
    requires Classes(infos[..n]) <= w.classes.Keys
    requires EachOutput(names, w, infos[..n]).Err?
    ensures EachOutput(names, w, infos) == EachOutput(names, w, infos[..n])
    decreases |infos| - n
  {
    if n < |infos| {
      var next := infos[..n + 1];
      assert next[..n] == infos[..n];
      PrefixClasses(infos, n + 1);
      EachErrorPersists(names, w, infos, n + 1);
    } else {
      assert infos[..n] == infos;
    }
  }

  /** The top-level classes of the scans of the included packages, in scan order. */
  function Outer(scans: seq<seq<ClassInfo>>): seq<ClassInfo>
  {
    if scans == [] then [] else Outer(scans[..|scans| - 1]) + TopLevel(scans[|scans| - 1])
  }

  /** The names collected over the scans: each scan's names put over the earlier ones. */
  function AllNames(target: string, scans: seq<seq<ClassInfo>>): ClassNames
  {
    if scans == [] then map[]
    else AllNames(target, scans[..|scans| - 1]) + ClassNamesOf(target, TopLevel(scans[|scans| - 1]), "")
  }

  /** Every top-level class with a mirror package has a name once all scans are in. */
  lemma {:induction false} AllNamesCover(target: string, scans: seq<seq<ClassInfo>>, c: ClassRef)
    requires c in Classes(Outer(scans)) && GetModifiedPackage(target, c.PackageName()).Some?
    ensures c in AllNames(target, scans)
    decreases |scans|
  {
    var prefix := scans[..|scans| - 1];
    var kept := TopLevel(scans[|scans| - 1]);
    ClassesAppend(Outer(prefix), kept);
    ClassNamesKeys(target, kept, "");
    if c in Classes(Outer(prefix)) {
      AllNamesCover(target, prefix, c);
    }
  }

  // ---------------------------------------------------------------------
  // The generator
  // ---------------------------------------------------------------------

  class CodeGenerator {
    /** The package the mirrors go under. */
    const targetPackageName: string
    /** What reflection answers about the loaded classes. */
    const world: World
    /** The mirror name of every class seen so far. */
    var classNames: ClassNames
    /** The files written to the output folder, in order. */
    var files: seq<JavaFile>

    predicate Valid()
      reads this
    {
      MirrorNames(targetPackageName, classNames)
    }

    constructor(targetPackageName: string, world: World)
      ensures this.targetPackageName == targetPackageName && this.world == world
      ensures classNames == map[] && files == []
      ensures Valid()
    {
      this.targetPackageName := targetPackageName;
      this.world := world;
      classNames := map[];
      files := [];
    }

    /**
     * `fillClassesInPackage`: keeps the visible top-level classes of the
     * scan and puts their names (nested ones included) over the known ones.
     */
    method FillClassesInPackage(scanned: seq<ClassInfo>) returns (kept: seq<ClassInfo>)
      requires Valid()
      modifies this
      ensures Valid()
      ensures kept == TopLevel(scanned)
      ensures classNames == old(classNames) + ClassNamesOf(targetPackageName, kept, "")
      ensures files == old(files)
      ensures forall c | c in Classes(kept) && GetModifiedPackage(targetPackageName, c.PackageName()).Some? ::
        c in classNames
    {
      kept := TopLevel(scanned);
      var added := ClassNamesOf(targetPackageName, kept, "");
      ClassNamesKeys(targetPackageName, kept, "");
      ClassNamesShape(targetPackageName, kept, "");
      classNames := classNames + added;
      forall c | c in classNames
        ensures StartsWith(classNames[c].packageName, GetModifiedPackage(targetPackageName, c.PackageName()).value)
      {
        if c in added {
          assert GetModifiedPackage(targetPackageName, c.PackageName()).value + ""
              == GetModifiedPackage(targetPackageName, c.PackageName()).value;
        }
      }
    }

    /** `getParameterSpec`: one spec per parameter, in order. */
    method GetParameterSpec(m: JMethod) returns (output: seq<ParameterSpec>)
      ensures output == ParameterSpecsOf(classNames, m.parameters)
    {
      output := [];
      var i := 0;
      while i < |m.parameters|
        invariant 0 <= i <= |m.parameters|
        invariant |output| == i
        invariant forall j | 0 <= j < i :: output[j] == ParameterSpecOf(classNames, m.parameters[j])
      {
        var p := m.parameters[i];
        var annotations := GetAnnotationSpec(p.annotations);
        output := output + [ParameterSpec(SanitizeClass(classNames, p.erasedType), p.name, annotations)];
        i := i + 1;
      }
      assert output == ParameterSpecsOf(classNames, m.parameters);
    }

    /** One iteration of `generateMethods` for a method it keeps: the spec built for it. */
    method MethodSpecFor(m: JMethod, isAbstract: bool, className: string) returns (spec: MethodSpec)
      ensures spec == MirrorMethod(classNames, m, isAbstract, className)
    {
      var annotations := GetAnnotationSpec(m.annotations);
      var parameters := GetParameterSpec(m);
      var returnType := SanitizeClass(classNames, m.returnType);
      var modifiers: set<Modifier>;
      var statement: Option<Statement>;
      if m.isStatic {
        var parameterString := GenerateParameterString(m);
        statement := Some(Delegate(m.returnType != VoidClass, MirrorHandler, m.name, className + ".class" + parameterString));
        modifiers := {Public, Static};
      } else if isAbstract {
        modifiers := {Public, Abstract};
        statement := None;
      } else {
        var parameterString := GenerateParameterString(m);
        modifiers := {Public};
        statement := Some(Delegate(m.returnType != VoidClass, MirrorHandler, m.name, "this" + parameterString));
      }
      spec := MethodSpec(m.name, annotations, parameters, returnType, [], modifiers, statement);
    }

    /** `generateMethods`: the spec of every method that is neither banned nor stood for by another. */
    method GenerateMethods(c: ClassRef, isAbstract: bool, className: string) returns (specs: seq<MethodSpec>)
      requires c in world.classes
      ensures specs == MirrorMethods(classNames, world, MethodsOf(world.classes[c], isAbstract),
                                     world.classes[c].kind, isAbstract, className,
                                     |MethodsOf(world.classes[c], isAbstract)|)
    {
      var decl := world.classes[c];
      var methods := if isAbstract then decl.declaredMethods else decl.methods;
      specs := [];
      var k := 0;
      while k < |methods|
        invariant 0 <= k <= |methods|
        invariant specs == MirrorMethods(classNames, world, methods, decl.kind, isAbstract, className, k)
      {
        var skip := Skipped(world, methods, decl.kind, k);
        MirrorMethodsStep(classNames, world, methods, decl.kind, isAbstract, className, k);
        if !skip {
          var spec := MethodSpecFor(methods[k], isAbstract, className);
          specs := specs + [spec];
        }
        k := k + 1;
      }
    }

    /**
     * `generateInterface`: writes the mirror of `c` and answers whether it
     * needs an implementation (exactly for an interface); a class without a
     * mirror name, a plain class without a superclass and an enum, whose
     * mirror has no constants, fail and write nothing.
     */
    method GenerateInterface(c: ClassRef) returns (r: Result<bool, Failure>)
      requires c in world.classes
      modifies this
      ensures classNames == old(classNames)
      ensures r.Err? <==> InterfaceFile(classNames, world, c).Err?
      ensures r.Err? ==> r.error == InterfaceFile(classNames, world, c).error && files == old(files)
      ensures r.Ok? ==> r.value == (world.classes[c].kind == Interface)
      ensures r.Ok? ==> files == old(files) + [InterfaceFile(classNames, world, c).value]
    {
      if c !in classNames {
        return Err(MissingClassName(c));
      }
      var className := classNames[c];
      var decl := world.classes[c];
      var needsImplementation := false;
      var methods: seq<MethodSpec>;
      if decl.kind == Interface {
        methods := GenerateMethods(c, true, className.simpleName);
        needsImplementation := true;
      } else {
        methods := GenerateMethods(c, false, className.simpleName);
      }
      var names := classNames;
      var superinterfaces := seq(|decl.interfaces|, i requires 0 <= i < |decl.interfaces| =>
                                   SanitizeClass(names, decl.interfaces[i].erased));
      var superclass: Option<TypeName> := None;
      if decl.kind == PlainClass && (decl.superclass.None? || decl.superclass.value.erased != ObjectClass) {
        if decl.superclass.None? {
          return Err(MissingSuperclass);
        }
        var s := decl.superclass.value.erased;
        var included := StartsWithIncluded(s.PackageName());
        if included {
          superclass := Some(SanitizeClass(classNames, s));
        }
      }
      if decl.kind == Enum {
        return Err(EnumWithoutConstants(className.simpleName));
      }
      var mirror := TypeSpec(decl.kind, className.simpleName, {Public}, methods, superinterfaces, superclass);
      files := files + [JavaFile(className.packageName, mirror)];
      return Ok(needsImplementation);
    }

    /** `generateImplementation`: writes the `...Impl` class of the mirror of `c`. */
    method GenerateImplementation(c: ClassRef)
      requires c in world.classes && c in classNames
      modifies this
      ensures classNames == old(classNames)
      ensures files == old(files) + [ImplementationFile(classNames, world, c)]
    {
      var className := classNames[c];
      var simplifiedName := className.simpleName + "Impl";
      var methodSpecs := GenerateMethods(c, false, simplifiedName);
      var mirror := TypeSpec(PlainClass, simplifiedName, {}, methodSpecs, [Named(className)], None);
      files := files + [JavaFile(className.packageName, mirror)];
    }

    /**
     * `fillClass`: the nested classes first, then the mirror and, when it is
     * needed, the implementation. On failure the files written so far stay.
     */
    method FillClass(info: ClassInfo) returns (r: Result<(), Failure>)
      requires Classes([info]) <= world.classes.Keys
      modifies this
      decreases InfoSize([info]), 0
      ensures classNames == old(classNames)
      ensures r.Ok? <==> Output(classNames, world, info).Ok?
      ensures r.Ok? ==> files == old(files) + Output(classNames, world, info).value
      ensures r.Err? ==> r.error == Output(classNames, world, info).error
      ensures Extends(files, old(files))
    {
      SingleClass(info);
      var nested := FillNested(info.inner);
      if nested.Err? {
        return nested;
      }
      var needsImplementation := GenerateInterface(info.cls);
      if needsImplementation.Err? {
        return Err(needsImplementation.error);
      }
      if needsImplementation.value {
        GenerateImplementation(info.cls);
      }
      return Ok(());
    }

    /** The loop of `fillClass` over the visible, non-anonymous nested classes. */
    method FillNested(inner: seq<ClassInfo>) returns (r: Result<(), Failure>)
      requires Classes(inner) <= world.classes.Keys
      modifies this
      decreases InfoSize(inner), 2
      ensures classNames == old(classNames)
      ensures r.Ok? <==> NestedOutput(classNames, world, inner).Ok?
      ensures r.Ok? ==> files == old(files) + NestedOutput(classNames, world, inner).value
      ensures r.Err? ==> r.error == NestedOutput(classNames, world, inner).error
      ensures Extends(files, old(files))
    {
      var i := 0;
      while i < |inner|
        invariant 0 <= i <= |inner|
        invariant classNames == old(classNames)
        invariant Classes(inner[..i]) <= world.classes.Keys
        invariant NestedOutput(classNames, world, inner[..i]).Ok?
        invariant files == old(files) + NestedOutput(classNames, world, inner[..i]).value
      {
        var sub := FillNestedAt(inner, i, old(files));
        if sub.Err? {
          NestedErrorPersists(classNames, world, inner, i + 1);
          return sub;
        }
        i := i + 1;
      }
      assert inner[..|inner|] == inner;
      return Ok(());
    }

    /** One iteration of `fillClass`' loop: the `i`-th nested class is filled unless it is invisible or anonymous. */
    method FillNestedAt(inner: seq<ClassInfo>, i: nat, ghost start: seq<JavaFile>) returns (r: Result<(), Failure>)
      requires i < |inner| && Classes(inner) <= world.classes.Keys && Classes(inner[..i]) <= world.classes.Keys
      requires NestedOutput(classNames, world, inner[..i]).Ok?
      requires files == start + NestedOutput(classNames, world, inner[..i]).value
      modifies this
      decreases InfoSize(inner), 1
      ensures classNames == old(classNames)
      ensures Classes(inner[..i + 1]) <= world.classes.Keys
      ensures r.Ok? <==> NestedOutput(classNames, world, inner[..i + 1]).Ok?
      ensures r.Ok? ==> files == start + NestedOutput(classNames, world, inner[..i + 1]).value
      ensures r.Err? ==> r.error == NestedOutput(classNames, world, inner[..i + 1]).error
      ensures Extends(files, start)
    {
      var nested := inner[i];
      ClassesElement(inner, i);
      PrefixClasses(inner, i + 1);
      NestedOutputStep(classNames, world, inner, i);
      ghost var written := NestedOutput(classNames, world, inner[..i]).value;
      ExtendsAppend(start, written);
      if nested.visible && !nested.isAnonymous {
        r := FillClass(nested);
        ExtendsTrans(files, start + written, start);
        if r.Ok? {
          AppendAssociates(start, written, Output(classNames, world, nested).value);
        }
      } else {
        r := Ok(());
      }
    }

    /**
     * The first loop of `main`: `fillClassesInPackage` on the scan of each
     * included package, in order, collecting the kept classes.
     */
    method FillScans(scans: seq<seq<ClassInfo>>) returns (outerClasses: seq<ClassInfo>)
      requires Valid() && classNames == map[]
      requires forall i | 0 <= i < |scans| :: Classes(scans[i]) <= world.classes.Keys
      modifies this
      ensures Valid() && files == old(files)
      ensures outerClasses == Outer(scans) && classNames == AllNames(targetPackageName, scans)
      ensures Classes(outerClasses) <= world.classes.Keys
    {
      outerClasses := [];
      var i := 0;
      while i < |scans|
        invariant 0 <= i <= |scans|
        invariant Valid() && files == old(files)
        invariant outerClasses == Outer(scans[..i]) && classNames == AllNames(targetPackageName, scans[..i])
        invariant Classes(outerClasses) <= world.classes.Keys
      {
        assert scans[..i + 1][..i] == scans[..i];
        var kept := FillClassesInPackage(scans[i]);
        TopLevelClasses(scans[i]);
        ClassesAppend(outerClasses, kept);
        outerClasses := outerClasses + kept;
        i := i + 1;
      }
      assert scans[..|scans|] == scans;
    }

    /** The second loop of `main`: `fillClass` on every kept class in turn. */
    method FillEach(outerClasses: seq<ClassInfo>) returns (r: Result<(), Failure>)
      requires Classes(outerClasses) <= world.classes.Keys
      modifies this
      ensures classNames == old(classNames)
      ensures r.Ok? <==> EachOutput(classNames, world, outerClasses).Ok?
      ensures r.Ok? ==> files == old(files) + EachOutput(classNames, world, outerClasses).value
      ensures r.Err? ==> r.error == EachOutput(classNames, world, outerClasses).error
    {
      var j := 0;
      while j < |outerClasses|
        invariant 0 <= j <= |outerClasses|
        invariant classNames == old(classNames)
        invariant Classes(outerClasses[..j]) <= world.classes.Keys
        invariant EachOutput(classNames, world, outerClasses[..j]).Ok?
        invariant files == old(files) + EachOutput(classNames, world, outerClasses[..j]).value
      {
        ClassesElement(outerClasses, j);
        PrefixClasses(outerClasses, j + 1);
        EachOutputStep(classNames, world, outerClasses, j);
        ghost var written := EachOutput(classNames, world, outerClasses[..j]).value;
        var res := FillClass(outerClasses[j]);
        if res.Err? {
          EachErrorPersists(classNames, world, outerClasses, j + 1);
          return res;
        }
        AppendAssociates(old(files), written, Output(classNames, world, outerClasses[j]).value);
        j := j + 1;
      }
      assert outerClasses[..|outerClasses|] == outerClasses;
      return Ok(());
    }
  }

  /**
   * `main`: a generator for the `org.mockbukkit.integrationtester` package
   * collects the names of the scans of the six included packages, in order,
   * and then fills every kept top-level class in turn; the first failure
   * ends the run.
   */
  method Run(world: World, scans: seq<seq<ClassInfo>>) returns (g: CodeGenerator, r: Result<(), Failure>)
    requires |scans| == |IncludedPackages|
    requires forall i | 0 <= i < |scans| :: Classes(scans[i]) <= world.classes.Keys
    ensures g.targetPackageName == TargetPackage && g.world == world && g.Valid()
    ensures g.classNames == AllNames(TargetPackage, scans)
    ensures Classes(Outer(scans)) <= world.classes.Keys
    ensures r.Ok? <==> EachOutput(g.classNames, world, Outer(scans)).Ok?
    ensures r.Ok? ==> g.files == EachOutput(g.classNames, world, Outer(scans)).value
  {
    g := new CodeGenerator(TargetPackage, world);
    var outerClasses := g.FillScans(scans);
    r := g.FillEach(outerClasses);
  }
}
