/**
 * Which reflected methods the generator mirrors: the members of `Object`,
 * enums and records it refuses (`CodeGenerator.isMethodBanned` and
 * `parametersMatches`), and the suppression of a method another method with
 * the same signature and a more general (or the same) return type stands
 * for (`CodeGenerator.ignoreMethod`).
 */
module Selection {
  import opened Reflection

  const LongClass: ClassRef := PrimitiveClass("long")
  const IntClass: ClassRef := PrimitiveClass("int")
  const ClassClass: ClassRef := DeclaredClass("java.lang", [], "Class")
  const StringClass: ClassRef := DeclaredClass("java.lang", [], "String")
  const EnumClass: ClassRef := DeclaredClass("java.lang", [], "Enum")

  /** The members every non-interface type inherits from `Object` and must not mirror. */
  const ObjectBans: map<string, seq<seq<ClassRef>>> := map[
    "getClass" := [[]],
    "notify" := [[]],
    "notifyAll" := [[]],
    "wait" := [[], [LongClass], [LongClass, IntClass]]]

  /** The ban list `isMethodBanned` builds for a type of the given kind: parameter lists per method name. */
  function BanList(kind: ClassKind): map<string, seq<seq<ClassRef>>>
  {
    match kind
    case Enum =>
      ObjectBans + map[
        "valueOf" := [[ClassClass, StringClass], [StringClass]],
        "compareTo" := [[ObjectClass], [EnumClass]],
        "hashCode" := [[]],
        "name" := [[]],
        "equals" := [[ObjectClass]],
        "describeConstable" := [[]],
        "getDeclaringClass" := [[]],
        "ordinal" := [[]],
        "values" := [[]]]
    case Record => ObjectBans["equals" := [[ObjectClass]]]
    case _ => ObjectBans
  }

  /** `parametersMatches`: each listed class is the parameter class at the same place. */
  predicate ParametersMatch(matcher: seq<ClassRef>, parameters: seq<ClassRef>)
    requires |matcher| <= |parameters|
  {
    if matcher == [] then true
    else matcher[0] == parameters[0] && ParametersMatch(matcher[1..], parameters[1..])
  }

  /** The loop of `isMethodBanned` over the listed parameter lists: one of them has the right size and matches. */
  predicate SomeListMatches(lists: seq<seq<ClassRef>>, parameters: seq<ClassRef>)
  {
    if lists == [] then false
    else (|lists[0]| == |parameters| && ParametersMatch(lists[0], parameters)) || SomeListMatches(lists[1..], parameters)
  }

  /** A matcher matches exactly the parameter lists it is a prefix of. */
  lemma {:induction false} ParametersMatchMeans(matcher: seq<ClassRef>, parameters: seq<ClassRef>)
    requires |matcher| <= |parameters|
    ensures ParametersMatch(matcher, parameters) <==> matcher == parameters[..|matcher|]
  {
    if matcher != [] {
      ParametersMatchMeans(matcher[1..], parameters[1..]);
      assert parameters[1..][..|matcher| - 1] == parameters[1..|matcher|];
      if matcher == parameters[..|matcher|] {
        assert matcher[1..] == parameters[1..|matcher|];
      }
    }
  }

  /** Some listed parameter list is the method's parameter list. */
  lemma {:induction false} SomeListMatchesMeans(lists: seq<seq<ClassRef>>, parameters: seq<ClassRef>)
    ensures SomeListMatches(lists, parameters) <==> parameters in lists
  {
    if lists != [] {
      SomeListMatchesMeans(lists[1..], parameters);
      if |lists[0]| == |parameters| {
        ParametersMatchMeans(lists[0], parameters);
        assert parameters[..|parameters|] == parameters;
      }
      assert lists == [lists[0]] + lists[1..];
    }
  }

  /**
   * `isMethodBanned(method, type)`: never for interfaces; otherwise the
   * method's name is listed for the type's kind with exactly its parameter
   * classes.
   */
  function IsMethodBanned(m: JMethod, kind: ClassKind): bool
  {
    if kind == Interface then false
    else if m.name !in BanList(kind) then false
    else SomeListMatches(BanList(kind)[m.name], m.ParameterTypes())
  }

  /** A method is banned exactly when its name is listed for the type's kind with exactly its parameter classes. */
  lemma IsMethodBannedMeans(m: JMethod, kind: ClassKind)
    ensures kind == Interface ==> !IsMethodBanned(m, kind)
    ensures kind != Interface ==>
      (IsMethodBanned(m, kind) <==> m.name in BanList(kind) && m.ParameterTypes() in BanList(kind)[m.name])
  {
    if kind != Interface && m.name in BanList(kind) {
      SomeListMatchesMeans(BanList(kind)[m.name], m.ParameterTypes());
    }
  }

  /** `getClass()` and `wait(long, int)` are banned from every class, enum and record. */
  lemma ObjectMembersBanned(m: JMethod, kind: ClassKind)
    requires kind != Interface
    requires (m.name == "getClass" && m.parameters == [])
          || (m.name == "wait" && m.ParameterTypes() == [LongClass, IntClass])
    ensures IsMethodBanned(m, kind)
  {
    IsMethodBannedMeans(m, kind);
    assert m.parameters == [] ==> m.ParameterTypes() == [];
  }

  /** `values()` is banned from an enum, and from nothing else. */
  lemma ValuesBannedOnlyFromEnums(m: JMethod, kind: ClassKind)
    requires m.name == "values" && m.parameters == []
    ensures IsMethodBanned(m, kind) <==> kind == Enum
  {
    IsMethodBannedMeans(m, kind);
    assert m.ParameterTypes() == [];
  }

  /** A record loses `equals(Object)` but keeps an `equals(String)` overload and its `hashCode()`. */
  lemma RecordBans(m: JMethod)
    requires m.name == "equals" || m.name == "hashCode"
    ensures m.name == "equals" && m.ParameterTypes() == [ObjectClass] ==> IsMethodBanned(m, Record)
    ensures m.name == "equals" && m.ParameterTypes() == [StringClass] ==> !IsMethodBanned(m, Record)
    ensures m.name == "hashCode" ==> !IsMethodBanned(m, Record)
  {
    IsMethodBannedMeans(m, Record);
    assert [StringClass] != [ObjectClass];
  }

  /** Interfaces keep every member, `getClass()` included. */
  lemma InterfacesKeepEverything(m: JMethod)
    ensures !IsMethodBanned(m, Interface)
  {
  }

  // ---------------------------------------------------------------------
  // Duplicate signatures
  // ---------------------------------------------------------------------

  /** The same name and the same parameter classes. */
  predicate SameSignature(a: JMethod, b: JMethod)
  {
    a.name == b.name && a.ParameterTypes() == b.ParameterTypes()
  }

  /** Another entry than the `k`-th has its signature and a return type its own is assignable to. */
  predicate Suppressed(w: World, methods: seq<JMethod>, k: nat)
    requires k < |methods|
  {
    exists i | 0 <= i < |methods| ::
      i != k && SameSignature(methods[i], methods[k]) && w.AssignableFrom(methods[i].returnType, methods[k].returnType)
  }

  /**
   * `ignoreMethod(methods[k], methods)`: the scan remembers the first
   * position of the signature in `methodPos`, but the test it guards is
   * reached only after `methodPos` has been lowered to at most the current
   * index, so the method is dropped as soon as another entry with its
   * signature has a return type assignable from its own.
   */
  method IgnoreMethod(w: World, methods: seq<JMethod>, k: nat) returns (r: bool)
    requires k < |methods|
    ensures r <==> Suppressed(w, methods, k)
  {
    var m := methods[k];
    var methodPos: int := 0x7fff_ffff;
    var i := 0;
    while i < |methods|
      invariant 0 <= i <= |methods|
      invariant forall j | 0 <= j < i ::
        !(j != k && SameSignature(methods[j], m) && w.AssignableFrom(methods[j].returnType, m.returnType))
    {
      var other := methods[i];
      if i == k {
        methodPos := if i < methodPos then i else methodPos;
      } else if SameSignature(m, other) {
        methodPos := if i < methodPos then i else methodPos;
        if w.AssignableFrom(other.returnType, m.returnType)
           && (!w.AssignableFrom(m.returnType, other.returnType) || i >= methodPos) {
          return true;
        }
      }
      i := i + 1;
    }
    return false;
  }

  /** Two entries with the same signature and return type suppress each other. */
  lemma MutualSuppression(w: World, methods: seq<JMethod>, i: nat, k: nat)
    requires i < |methods| && k < |methods| && i != k
    requires SameSignature(methods[i], methods[k]) && methods[i].returnType == methods[k].returnType
    ensures Suppressed(w, methods, i) && Suppressed(w, methods, k)
  {
  }

  /**
   * Of two entries that alone share a signature, the one with the narrower
   * return type is dropped and the one with the wider return type is kept.
   */
  lemma WiderReturnTypeKept(w: World, methods: seq<JMethod>, wide: nat, narrow: nat)
    requires wide < |methods| && narrow < |methods| && wide != narrow
    requires SameSignature(methods[wide], methods[narrow])
    requires forall j | 0 <= j < |methods| && j != wide && j != narrow :: !SameSignature(methods[j], methods[wide])
    requires w.AssignableFrom(methods[wide].returnType, methods[narrow].returnType)
    requires !w.AssignableFrom(methods[narrow].returnType, methods[wide].returnType)
    ensures Suppressed(w, methods, narrow) && !Suppressed(w, methods, wide)
  {
  }

  /** A method whose signature no other entry shares is never dropped. */
  lemma UniqueSignatureKept(w: World, methods: seq<JMethod>, k: nat)
    requires k < |methods|
    requires forall j | 0 <= j < |methods| && j != k :: !SameSignature(methods[j], methods[k])
    ensures !Suppressed(w, methods, k)
  {
  }
}
