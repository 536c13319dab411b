/**
 * ObjectUtil: the tagged value codec of the runtime bridge. A value becomes a
 * JSON object whose "type" member is one of "marked" (a registered object,
 * sent by handle), "array", "collection" or "primitive". Decoding a handle
 * that is not registered yet creates a placeholder object and registers it.
 */
module ObjectUtil {
  import opened Wrappers
  import opened CoreValues
  import opened Registry

  const ObjectClass: string := "java.lang.Object"
  const ArrayListClass: string := "java.util.ArrayList"
  const HashSetClass: string := "java.util.HashSet"

  /** What `Class.forName` and `List/Set.class.isAssignableFrom` answer for class names. */
  datatype ClassPath = ClassPath(loadable: set<string>, lists: set<string>, sets: set<string>)

  /** The registry's table together with the allocator that `createNew` draws placeholders from. */
  datatype Session = Session(objects: BiMap, nextRef: nat)

  /** The class names `readPrimitive` accepts. */
  const WrapperClassNames: set<string> := {
    "java.lang.Boolean", "java.lang.Byte", "java.lang.Short", "java.lang.Integer", "java.lang.Long",
    "java.lang.Float", "java.lang.Double", "java.lang.Character", "java.lang.String"
  }

  /** A `JsonPrimitive`: what `(JsonPrimitive) jsonObject.get("value")` lets through. */
  predicate IsJsonPrimitive(j: Json)
  {
    j.JBool? || j.JNum? || j.JDec? || j.JStr?
  }

  /** `createPrimitive`: the JSON literal of a boxed primitive or string. */
  function CreatePrimitive(p: Prim): (r: Json)
    ensures IsJsonPrimitive(r)
  {
    match p
    case Boolean(b) => JBool(b)
    case Byte(v) => JNum(v as int)
    case Short(v) => JNum(v as int)
    case Integer(v) => JNum(v as int)
    case Long(v) => JNum(v as int)
    case Character(c) => JStr([c])
    case Float(t) => JDec(t)
    case Double(t) => JDec(t)
    case String(s) => JStr(s)
  }

  /**
   * `readPrimitive(value, classType)`: `value` is `None` when the member was
   * absent (Java's null). The class name is switched on first; the accessor
   * then reads the literal, narrowing integers as Java does.
   */
  function ReadPrimitive(value: Option<Json>, classType: string): (r: Result<Obj, Fault>)
    requires value.Some? ==> IsJsonPrimitive(value.value)
    ensures r.Ok? ==> r.value.Boxed? && WrapperClassName(r.value.value) == classType
    ensures classType !in WrapperClassNames ==> r == Err(UnexpectedValue(classType))
    ensures classType in WrapperClassNames && value.None? ==> r == Err(NullDereference)
  {
    if classType !in WrapperClassNames then Err(UnexpectedValue(classType))
    else if value.None? then Err(NullDereference)
    else
      var v := value.value;
      if classType == "java.lang.Boolean" then
        if v.JBool? then Ok(Boxed(Boolean(v.b))) else Err(Malformed("value"))
      else if classType == "java.lang.Byte" then
        if v.JNum? then Ok(Boxed(Byte(ToI8(v.n)))) else Err(Malformed("value"))
      else if classType == "java.lang.Short" then
        if v.JNum? then Ok(Boxed(Short(ToI16(v.n)))) else Err(Malformed("value"))
      else if classType == "java.lang.Integer" then
        if v.JNum? then Ok(Boxed(Integer(ToI32(v.n)))) else Err(Malformed("value"))
      else if classType == "java.lang.Long" then
        if v.JNum? then Ok(Boxed(Long(ToI64(v.n)))) else Err(Malformed("value"))
      else if classType == "java.lang.Float" then
        if v.JDec? then Ok(Boxed(Float(v.text))) else Err(Malformed("value"))
      else if classType == "java.lang.Double" then
        if v.JDec? then Ok(Boxed(Double(v.text))) else Err(Malformed("value"))
      else if classType == "java.lang.Character" then
        if v.JStr? && |v.s| > 0 then Ok(Boxed(Character(v.s[0]))) else Err(Malformed("value"))
      else
        if v.JStr? then Ok(Boxed(String(v.s))) else Err(Malformed("value"))
  }

  /** `readPrimitive` undoes `createPrimitive` when given the value's own class name. */
  lemma ReadPrimitiveRoundTrip(p: Prim)
    ensures ReadPrimitive(Some(CreatePrimitive(p)), WrapperClassName(p)) == Ok(Boxed(p))
  {
  }

  /**
   * The "primitive" case of a tagged value: the "value" member is cast to a
   * JSON primitive (an absent member is null), then "class_type" is read.
   */
  function ReadPrimitiveMember(m: map<string, Json>): (r: Result<Obj, Fault>)
    ensures "value" in m && !IsJsonPrimitive(m["value"]) ==> r == Err(Malformed("value"))
    ensures r.Ok? ==> r.value.Boxed? && "class_type" in m && m["class_type"] == JStr(WrapperClassName(r.value.value))
  {
    if "value" in m && !IsJsonPrimitive(m["value"]) then Err(Malformed("value"))
    else
      var c :- GetString(m, "class_type");
      ReadPrimitive(if "value" in m then Some(m["value"]) else None, c)
  }

  /** The distinct elements of `xs` in first-occurrence order: what `addAll` leaves in a set. */
  function Distinct(xs: seq<Obj>): (r: seq<Obj>)
    ensures forall x :: x in r <==> x in xs
    ensures NoDuplicates(r)
    ensures |r| <= |xs|
  {
    if |xs| == 0 then []
    else
      var d := Distinct(xs[..|xs| - 1]);
      if xs[|xs| - 1] in d then d else d + [xs[|xs| - 1]]
  }

  predicate NoDuplicates(xs: seq<Obj>)
  {
    forall i, j | 0 <= i < j < |xs| :: xs[i] != xs[j]
  }

  /** A sequence without duplicates is its own set of distinct elements. */
  lemma {:induction false} DistinctOfNoDuplicates(xs: seq<Obj>)
    requires NoDuplicates(xs)
    ensures Distinct(xs) == xs
  {
    if |xs| > 0 {
      var init := xs[..|xs| - 1];
      assert NoDuplicates(init);
      DistinctOfNoDuplicates(init);
      assert xs[|xs| - 1] !in init;
      assert init + [xs[|xs| - 1]] == xs;
    }
  }

  /**
   * `toCollection(objects, classType)`: an in-order ArrayList for a List
   * class, a HashSet for a Set class; a class that cannot be loaded, or that
   * is neither, throws.
   */
  function ToCollection(objects: seq<Obj>, classType: string, cp: ClassPath): (r: Result<Obj, Fault>)
    ensures classType !in cp.loadable ==> r == Err(ClassNotFound(classType))
    ensures classType in cp.loadable && classType in cp.lists ==> r == Ok(Collection(ArrayListClass, objects))
    ensures classType in cp.loadable && classType !in cp.lists && classType in cp.sets ==>
      r.Ok? && r.value.Collection? && r.value.className == HashSetClass && NoDuplicates(r.value.elements)
      && (forall x :: x in r.value.elements <==> x in objects)
    ensures classType in cp.loadable && classType !in cp.lists && classType !in cp.sets ==>
      r == Err(UnexpectedCollectionType(classType))
  {
    if classType !in cp.loadable then Err(ClassNotFound(classType))
    else if classType in cp.lists then Ok(Collection(ArrayListClass, objects))
    else if classType in cp.sets then Ok(Collection(HashSetClass, Distinct(objects)))
    else Err(UnexpectedCollectionType(classType))
  }

  /** The JSON a registered object is sent as. */
  function MarkedJson(id: i64, classType: string): Json
  {
    JObj(map["objectId" := JNum(id as int), "type" := JStr("marked"), "class_type" := JStr(classType)])
  }

  /**
   * `serializeData(object, registry)`: the registry is consulted first, so a
   * registered object of any kind is sent by handle. Otherwise arrays and
   * collections are encoded element-wise, boxed primitives and strings as
   * literals, and anything else throws.
   */
  function SerializeData(o: Obj, objects: BiMap): (r: Result<Json, Fault>)
    requires objects.Valid()
    ensures r.Ok? ==> r.value.JObj? && "type" in r.value.members
    ensures r.Ok? ==> (r.value.members["type"] == JStr("marked") <==> objects.KeyOf(o).Some?)
    decreases o, 1
  {
    match objects.KeyOf(o)
    case Some(k) =>
      (match RuntimeClassName(o)
       case Err(e) => Err(e)
       case Ok(c) => Ok(MarkedJson(k, c)))
    case None =>
      match o
      case Array(_, es) =>
        (match SerializeAll(es, objects)
         case Err(e) => Err(e)
         case Ok(js) => Ok(JObj(map["elements" := JArr(js), "type" := JStr("array")])))
      case Collection(c, es) =>
        (match SerializeAll(es, objects)
         case Err(e) => Err(e)
         case Ok(js) => Ok(JObj(map["elements" := JArr(js), "type" := JStr("collection"), "class_type" := JStr(c)])))
      case Boxed(p) =>
        Ok(JObj(map["type" := JStr("primitive"), "value" := CreatePrimitive(p), "class_type" := JStr(WrapperClassName(p))]))
      case Null => Err(NullDereference)
      case Instance(_, _) => Err(UnknownObject(o))
  }

  /** The element loop of `serializeData`: the first element that fails aborts the encoding. */
  function SerializeAll(es: seq<Obj>, objects: BiMap): (r: Result<seq<Json>, Fault>)
    requires objects.Valid()
    ensures r.Ok? ==> |r.value| == |es|
    decreases es, 0
  {
    if |es| == 0 then Ok([])
    else
      match SerializeAll(es[..|es| - 1], objects)
      case Err(e) => Err(e)
      case Ok(js) =>
        match SerializeData(es[|es| - 1], objects)
        case Err(e) => Err(e)
        case Ok(j) => Ok(js + [j])
  }

  lemma {:induction false} SerializeAllStopsAtError(es: seq<Obj>, i: nat, objects: BiMap)
    requires objects.Valid() && i <= |es| && SerializeAll(es[..i], objects).Err?
    ensures SerializeAll(es, objects) == SerializeAll(es[..i], objects)
    decreases |es| - i
  {
    if i == |es| {
      assert es[..i] == es;
    } else {
      assert es[..i + 1][..i] == es[..i];
      SerializeAllStopsAtError(es, i + 1, objects);
    }
  }

  /** `serializeData(object, registry)`, with its element loops. */
  method SerializeObject(o: Obj, registry: ObjectRegistry) returns (r: Result<Json, Fault>)
    requires registry.Valid()
    ensures r == SerializeData(o, registry.objects)
    decreases o, 1
  {
    var objectId := registry.GetKey(o);
    if objectId.Some? {
      var classType :- RuntimeClassName(o);
      return Ok(MarkedJson(objectId.value, classType));
    }
    match o
    case Array(_, es) =>
      var elementJson :- SerializeElements(es, registry);
      r := Ok(JObj(map["elements" := JArr(elementJson), "type" := JStr("array")]));
    case Collection(c, es) =>
      var elementJson :- SerializeElements(es, registry);
      r := Ok(JObj(map["elements" := JArr(elementJson), "type" := JStr("collection"), "class_type" := JStr(c)]));
    case Boxed(p) =>
      r := Ok(JObj(map["type" := JStr("primitive"), "value" := CreatePrimitive(p), "class_type" := JStr(WrapperClassName(p))]));
    case Null =>
      r := Err(NullDereference);
    case Instance(_, _) =>
      r := Err(UnknownObject(o));
  }

  /** The loop of `serializeData` over an array's or a collection's elements. */
  method SerializeElements(es: seq<Obj>, registry: ObjectRegistry) returns (r: Result<seq<Json>, Fault>)
    requires registry.Valid()
    ensures r == SerializeAll(es, registry.objects)
    decreases es, 0
  {
    var elementJson: seq<Json> := [];
    var i := 0;
    while i < |es|
      invariant 0 <= i <= |es|
      invariant SerializeAll(es[..i], registry.objects) == Ok(elementJson)
    {
      var j := SerializeObject(es[i], registry);
      assert es[..i + 1][..i] == es[..i];
      if j.Err? {
        SerializeAllStopsAtError(es, i + 1, registry.objects);
        return Err(j.error);
      }
      elementJson := elementJson + [j.value];
      i := i + 1;
    }
    assert es[..i] == es;
    r := Ok(elementJson);
  }

  /**
   * The values `serializeData` accepts: registered non-null objects, and
   * unregistered arrays and collections of such values, boxed primitives and
   * strings.
   */
  ghost predicate Serializable(o: Obj, objects: BiMap)
    requires objects.Valid()
  {
    if objects.KeyOf(o).Some? then o != Null
    else match o
      case Array(_, es) => forall i | 0 <= i < |es| :: Serializable(es[i], objects)
      case Collection(_, es) => forall i | 0 <= i < |es| :: Serializable(es[i], objects)
      case Boxed(_) => true
      case _ => false
  }

  /** `serializeData` succeeds exactly on the serializable values. */
  lemma {:induction false} SerializeOkIff(o: Obj, objects: BiMap)
    requires objects.Valid()
    ensures SerializeData(o, objects).Ok? <==> Serializable(o, objects)
    decreases o, 1
  {
    if objects.KeyOf(o).None? {
      match o
      case Array(_, es) => SerializeAllOkIff(es, objects);
      case Collection(_, es) => SerializeAllOkIff(es, objects);
      case _ =>
    }
  }

  lemma {:induction false} SerializeAllOkIff(es: seq<Obj>, objects: BiMap)
    requires objects.Valid()
    ensures SerializeAll(es, objects).Ok? <==> forall i | 0 <= i < |es| :: Serializable(es[i], objects)
    decreases es, 0
  {
    if |es| > 0 {
      var init := es[..|es| - 1];
      SerializeAllOkIff(init, objects);
      SerializeOkIff(es[|es| - 1], objects);
      assert forall i | 0 <= i < |init| :: init[i] == es[i];
    }
  }

  /**
   * `readObject(element, registry)` as a function of the session before the
   * call: the result and the session after it. A failure leaves whatever the
   * registry had gained before the exception.
   */
  function Read(j: Json, s: Session, cp: ClassPath): (r: (Result<Obj, Fault>, Session))
    requires s.objects.Valid()
    ensures r.1.objects.Valid()
    ensures r.0.Ok? ==> r.0.value != Null
    decreases j, 1
  {
    if !j.JObj? then (Err(NotAnObject), s)
    else
      var m := j.members;
      match GetString(m, "type")
      case Err(e) => (Err(e), s)
      case Ok(tag) =>
        if tag == "marked" then
          match GetLong(m, "objectId")
          case Err(e) => (Err(e), s)
          case Ok(id) =>
            if id in s.objects.forward then
              if s.objects.forward[id] != Null then (Ok(s.objects.forward[id]), s)
              else (Err(ObjectNotFound(id)), s)
            else
              match GetString(m, "class_type")
              case Err(e) => (Err(e), s)
              case Ok(c) =>
                var o := Instance(s.nextRef, c);
                match s.objects.Put(id, o)
                case Err(e) => (Err(e), s.(nextRef := s.nextRef + 1))
                case Ok(b) => (Ok(o), Session(b, s.nextRef + 1))
        else if tag == "array" then
          match GetArray(m, "elements")
          case Err(e) => (Err(e), s)
          case Ok(js) =>
            var (xs, s1) := ReadAll(js, s, cp);
            if xs.Err? then (Err(xs.error), s1) else (Ok(Array(ObjectClass, xs.value)), s1)
        else if tag == "collection" then
          match GetArray(m, "elements")
          case Err(e) => (Err(e), s)
          case Ok(js) =>
            var (xs, s1) := ReadAll(js, s, cp);
            if xs.Err? then (Err(xs.error), s1)
            else
              match GetString(m, "class_type")
              case Err(e) => (Err(e), s1)
              case Ok(c) => (ToCollection(xs.value, c, cp), s1)
        else if tag == "primitive" then (ReadPrimitiveMember(m), s)
        else (Err(UnexpectedType(tag)), s)
  }

  /** `readArray`: the elements are read in order, each in the session the previous one left. */
  function ReadAll(js: seq<Json>, s: Session, cp: ClassPath): (r: (Result<seq<Obj>, Fault>, Session))
    requires s.objects.Valid()
    ensures r.1.objects.Valid()
    decreases js, 0
  {
    if |js| == 0 then (Ok([]), s)
    else
      var (xs, s1) := ReadAll(js[..|js| - 1], s, cp);
      if xs.Err? then (xs, s1)
      else
        var (x, s2) := Read(js[|js| - 1], s1, cp);
        if x.Err? then (Err(x.error), s2) else (Ok(xs.value + [x.value]), s2)
  }

  /** Once an element fails, the rest of the elements are not read. */
  lemma {:induction false} ReadAllStopsAtError(js: seq<Json>, i: nat, s: Session, cp: ClassPath)
    requires s.objects.Valid() && i <= |js| && ReadAll(js[..i], s, cp).0.Err?
    ensures ReadAll(js, s, cp) == ReadAll(js[..i], s, cp)
    decreases |js| - i
  {
    if i == |js| {
      assert js[..i] == js;
    } else {
      assert js[..i + 1][..i] == js[..i];
      ReadAllStopsAtError(js, i + 1, s, cp);
    }
  }

  /*
   * Sessions. The registry stays injective, no handle is bound to null, and
   * the allocator's next reference is never bound: a freshly created
   * placeholder has no handle yet.
   */

  ghost predicate Consistent(s: Session)
  {
    && s.objects.Valid()
    && Null !in s.objects.forward.Values
    && forall k | k in s.objects.forward :: s.objects.forward[k].Instance? ==> s.objects.forward[k].ref < s.nextRef
  }

  /** `s'` keeps every binding of `s` and has allocated at least as much. */
  ghost predicate Extends(s: Session, s': Session)
  {
    && (forall k | k in s.objects.forward :: k in s'.objects.forward && s'.objects.forward[k] == s.objects.forward[k])
    && s.nextRef <= s'.nextRef
  }

  /**
   * Decoding never unbinds or rebinds a handle, keeps the session consistent,
   * and the `putObject` of a fresh placeholder never clashes.
   */
  lemma {:induction false} ReadKeepsConsistent(j: Json, s: Session, cp: ClassPath)
    requires Consistent(s)
    ensures Consistent(Read(j, s, cp).1) && Extends(s, Read(j, s, cp).1)
    ensures Read(j, s, cp).0 != Err(ValueAlreadyPresent)
    decreases j, 1
  {
    if j.JObj? && GetString(j.members, "type").Ok? {
      var m := j.members;
      var tag := GetString(m, "type").value;
      if (tag == "array" || tag == "collection") && GetArray(m, "elements").Ok? {
        ReadAllKeepsConsistent(GetArray(m, "elements").value, s, cp);
      } else if tag == "marked" && GetLong(m, "objectId").Ok? && GetString(m, "class_type").Ok? {
        var id := GetLong(m, "objectId").value;
        var o := Instance(s.nextRef, GetString(m, "class_type").value);
        if id !in s.objects.forward {
          assert o !in s.objects.forward.Values;
        }
      }
    }
  }

  lemma {:induction false} ReadAllKeepsConsistent(js: seq<Json>, s: Session, cp: ClassPath)
    requires Consistent(s)
    ensures Consistent(ReadAll(js, s, cp).1) && Extends(s, ReadAll(js, s, cp).1)
    ensures ReadAll(js, s, cp).0 != Err(ValueAlreadyPresent)
    decreases js, 0
  {
    if |js| > 0 {
      var init := js[..|js| - 1];
      ReadAllKeepsConsistent(init, s, cp);
      var s1 := ReadAll(init, s, cp).1;
      if ReadAll(init, s, cp).0.Ok? {
        ReadKeepsConsistent(js[|js| - 1], s1, cp);
      }
    }
  }

  /** A registered handle decodes to its object and leaves the session as it was. */
  lemma ReadMarkedRegistered(id: i64, classType: string, s: Session, cp: ClassPath)
    requires s.objects.Valid() && id in s.objects.forward && s.objects.forward[id] != Null
    ensures Read(MarkedJson(id, classType), s, cp) == (Ok(s.objects.forward[id]), s)
  {
  }

  /**
   * An unknown handle decodes to a new placeholder of the named class, bound
   * under exactly that handle; nothing else in the registry changes.
   */
  lemma ReadMarkedUnknown(id: i64, classType: string, s: Session, cp: ClassPath)
    requires Consistent(s) && id !in s.objects.forward
    ensures Read(MarkedJson(id, classType), s, cp).0 == Ok(Instance(s.nextRef, classType))
    ensures Read(MarkedJson(id, classType), s, cp).1.objects.forward
            == s.objects.forward[id := Instance(s.nextRef, classType)]
    ensures Read(MarkedJson(id, classType), s, cp).1.nextRef == s.nextRef + 1
  {
    assert Instance(s.nextRef, classType) !in s.objects.forward.Values;
  }

  /** Lazy registration is idempotent: decoding the same handle again yields the same object. */
  lemma ReadMarkedTwice(id: i64, classType: string, classType': string, s: Session, cp: ClassPath)
    requires Consistent(s)
    ensures var (first, s1) := Read(MarkedJson(id, classType), s, cp);
      first.Ok? && Read(MarkedJson(id, classType'), s1, cp) == (first, s1)
  {
    if id !in s.objects.forward {
      ReadMarkedUnknown(id, classType, s, cp);
    }
  }

  /** An unknown "type" tag is rejected before anything is read or registered. */
  lemma ReadUnknownTag(m: map<string, Json>, s: Session, cp: ClassPath)
    requires s.objects.Valid() && "type" in m && m["type"].JStr?
    requires m["type"].s !in {"marked", "array", "collection", "primitive"}
    ensures Read(JObj(m), s, cp) == (Err(UnexpectedType(m["type"].s)), s)
  {
  }

  /*
   * Round trip. Decoding what `serializeData` produced, on the same registry,
   * gives back the value up to the shapes the decoder chooses: arrays come
   * back as `Object[]`, lists as ArrayList and sets as HashSet.
   */

  /** Every unregistered collection inside `v` names a loadable List or Set class. */
  ghost predicate Classified(v: Obj, objects: BiMap, cp: ClassPath)
    requires objects.Valid()
  {
    if objects.KeyOf(v).Some? then true
    else match v
      case Array(_, es) => forall i | 0 <= i < |es| :: Classified(es[i], objects, cp)
      case Collection(c, es) =>
        && c in cp.loadable && (c in cp.lists || c in cp.sets)
        && forall i | 0 <= i < |es| :: Classified(es[i], objects, cp)
      case _ => true
  }

  /** The value `readObject` rebuilds from the encoding of `v`. */
  function Canon(v: Obj, objects: BiMap, cp: ClassPath): Obj
    requires objects.Valid()
    decreases v, 1
  {
    if objects.KeyOf(v).Some? then v
    else match v
      case Array(_, es) => Array(ObjectClass, CanonAll(es, objects, cp))
      case Collection(c, es) =>
        if c in cp.lists then Collection(ArrayListClass, CanonAll(es, objects, cp))
        else Collection(HashSetClass, Distinct(CanonAll(es, objects, cp)))
      case _ => v
  }

  function CanonAll(es: seq<Obj>, objects: BiMap, cp: ClassPath): (r: seq<Obj>)
    requires objects.Valid()
    ensures |r| == |es|
    decreases es, 0
  {
    if |es| == 0 then [] else CanonAll(es[..|es| - 1], objects, cp) + [Canon(es[|es| - 1], objects, cp)]
  }

  /** `readObject(serializeData(v))` on the same registry rebuilds `v` and registers nothing. */
  lemma {:induction false} RoundTrip(v: Obj, s: Session, cp: ClassPath)
    requires s.objects.Valid() && Serializable(v, s.objects) && Classified(v, s.objects, cp)
    ensures SerializeData(v, s.objects).Ok?
    ensures Read(SerializeData(v, s.objects).value, s, cp) == (Ok(Canon(v, s.objects, cp)), s)
    decreases v, 1
  {
    SerializeOkIff(v, s.objects);
    if s.objects.KeyOf(v).Some? {
      ReadMarkedRegistered(s.objects.KeyOf(v).value, RuntimeClassName(v).value, s, cp);
    } else {
      match v
      case Array(_, es) =>
        RoundTripAll(es, s, cp);
        ReadArrayJson(SerializeAll(es, s.objects).value, s, cp);
      case Collection(c, es) =>
        RoundTripAll(es, s, cp);
        ReadCollectionJson(SerializeAll(es, s.objects).value, c, s, cp);
      case Boxed(p) =>
        ReadPrimitiveRoundTrip(p);
        ReadPrimitiveJson(p, s, cp);
    }
  }

  lemma ReadArrayJson(js: seq<Json>, s: Session, cp: ClassPath)
    requires s.objects.Valid() && ReadAll(js, s, cp).0.Ok?
    ensures Read(JObj(map["elements" := JArr(js), "type" := JStr("array")]), s, cp)
            == (Ok(Array(ObjectClass, ReadAll(js, s, cp).0.value)), ReadAll(js, s, cp).1)
  {
  }

  lemma ReadCollectionJson(js: seq<Json>, c: string, s: Session, cp: ClassPath)
    requires s.objects.Valid() && ReadAll(js, s, cp).0.Ok?
    ensures Read(JObj(map["elements" := JArr(js), "type" := JStr("collection"), "class_type" := JStr(c)]), s, cp)
            == (ToCollection(ReadAll(js, s, cp).0.value, c, cp), ReadAll(js, s, cp).1)
  {
  }

  lemma ReadPrimitiveJson(p: Prim, s: Session, cp: ClassPath)
    requires s.objects.Valid()
    ensures Read(JObj(map["type" := JStr("primitive"), "value" := CreatePrimitive(p), "class_type" := JStr(WrapperClassName(p))]), s, cp)
            == (ReadPrimitive(Some(CreatePrimitive(p)), WrapperClassName(p)), s)
  {
  }

  /** `readArray` of the encoded elements: same length, same order, each element rebuilt. */
  lemma {:induction false} RoundTripAll(es: seq<Obj>, s: Session, cp: ClassPath)
    requires s.objects.Valid()
    requires forall i | 0 <= i < |es| :: Serializable(es[i], s.objects) && Classified(es[i], s.objects, cp)
    ensures SerializeAll(es, s.objects).Ok?
    ensures ReadAll(SerializeAll(es, s.objects).value, s, cp) == (Ok(CanonAll(es, s.objects, cp)), s)
    decreases es, 0
  {
    if |es| > 0 {
      var init := es[..|es| - 1];
      RoundTripAll(init, s, cp);
      RoundTrip(es[|es| - 1], s, cp);
      var js := SerializeAll(es, s.objects).value;
      assert js[..|js| - 1] == SerializeAll(init, s.objects).value;
    }
  }

  /** `v` already has the shape decoding produces. */
  ghost predicate Canonical(v: Obj, objects: BiMap, cp: ClassPath)
    requires objects.Valid()
  {
    if objects.KeyOf(v).Some? then true
    else match v
      case Array(c, es) => c == ObjectClass && forall i | 0 <= i < |es| :: Canonical(es[i], objects, cp)
      case Collection(c, es) =>
        && ((c == ArrayListClass && c in cp.lists) || (c == HashSetClass && c !in cp.lists && NoDuplicates(es)))
        && forall i | 0 <= i < |es| :: Canonical(es[i], objects, cp)
      case _ => true
  }

  lemma {:induction false} CanonOfCanonical(v: Obj, objects: BiMap, cp: ClassPath)
    requires objects.Valid() && Canonical(v, objects, cp)
    ensures Canon(v, objects, cp) == v
    decreases v, 1
  {
    if objects.KeyOf(v).None? {
      match v
      case Array(_, es) => CanonAllOfCanonical(es, objects, cp);
      case Collection(_, es) =>
        CanonAllOfCanonical(es, objects, cp);
        if v.className == HashSetClass {
          DistinctOfNoDuplicates(es);
        }
      case _ =>
    }
  }

  lemma {:induction false} CanonAllOfCanonical(es: seq<Obj>, objects: BiMap, cp: ClassPath)
    requires objects.Valid() && forall i | 0 <= i < |es| :: Canonical(es[i], objects, cp)
    ensures CanonAll(es, objects, cp) == es
    decreases es, 0
  {
    if |es| > 0 {
      CanonAllOfCanonical(es[..|es| - 1], objects, cp);
      CanonOfCanonical(es[|es| - 1], objects, cp);
      assert es[..|es| - 1] + [es[|es| - 1]] == es;
    }
  }

  /**
   * For values already in decoded shape (registered references, primitives,
   * strings, `Object[]`, ArrayLists and duplicate-free HashSets of these) the
   * round trip is exact.
   */
  lemma RoundTripExact(v: Obj, s: Session, cp: ClassPath)
    requires s.objects.Valid() && Serializable(v, s.objects) && Classified(v, s.objects, cp)
    requires Canonical(v, s.objects, cp)
    ensures SerializeData(v, s.objects).Ok?
    ensures Read(SerializeData(v, s.objects).value, s, cp) == (Ok(v), s)
  {
    RoundTrip(v, s, cp);
    CanonOfCanonical(v, s.objects, cp);
  }

  /** The allocator `createNew` draws from: each call yields an object never seen before. */
  class Heap {
    var nextRef: nat

    constructor (start: nat)
      ensures nextRef == start
    {
      nextRef := start;
    }

    /** `createNew(className)`: a new placeholder of the named class. */
    method New(className: string) returns (o: Obj)
      modifies this
      ensures o == Instance(old(nextRef), className) && nextRef == old(nextRef) + 1
    {
      o := Instance(nextRef, className);
      nextRef := nextRef + 1;
    }
  }

  /** `readObject(element, registry)`, registering placeholders for unknown handles in place. */
  method ReadObject(j: Json, registry: ObjectRegistry, heap: Heap, cp: ClassPath) returns (r: Result<Obj, Fault>)
    requires registry.Valid()
    modifies registry, heap
    ensures registry.Valid() && registry.classRemapping == old(registry.classRemapping)
    ensures (r, Session(registry.objects, heap.nextRef)) == Read(j, old(Session(registry.objects, heap.nextRef)), cp)
    decreases j, 1
  {
    ghost var s0 := Session(registry.objects, heap.nextRef);
    if !j.JObj? {
      return Err(NotAnObject);
    }
    var m := j.members;
    var tag := GetString(m, "type");
    if tag.Err? {
      return Err(tag.error);
    }
    if tag.value == "marked" {
      var id := GetLong(m, "objectId");
      if id.Err? {
        return Err(id.error);
      }
      var known := registry.HasKey(id.value);
      if known {
        r := registry.GetObject(id.value);
        return;
      }
      var classType := GetString(m, "class_type");
      if classType.Err? {
        return Err(classType.error);
      }
      var o := heap.New(classType.value);
      var put := registry.PutObject(id.value, o);
      if put.Err? {
        return Err(put.error);
      }
      DeterminedByForward(registry.objects, s0.objects.Put(id.value, o).value);
      r := Ok(o);
    } else if tag.value == "array" {
      var elements := GetArray(m, "elements");
      if elements.Err? {
        return Err(elements.error);
      }
      var xs := ReadArray(elements.value, registry, heap, cp);
      if xs.Err? {
        return Err(xs.error);
      }
      r := Ok(Array(ObjectClass, xs.value));
    } else if tag.value == "collection" {
      var elements := GetArray(m, "elements");
      if elements.Err? {
        return Err(elements.error);
      }
      var xs := ReadArray(elements.value, registry, heap, cp);
      if xs.Err? {
        return Err(xs.error);
      }
      var classType := GetString(m, "class_type");
      if classType.Err? {
        return Err(classType.error);
      }
      r := ToCollection(xs.value, classType.value, cp);
    } else if tag.value == "primitive" {
      r := ReadPrimitiveMember(m);
    } else {
      r := Err(UnexpectedType(tag.value));
    }
  }

  /** `readArray(elements, registry)`: the elements in order; the first failure aborts. */
  method ReadArray(js: seq<Json>, registry: ObjectRegistry, heap: Heap, cp: ClassPath) returns (r: Result<seq<Obj>, Fault>)
    requires registry.Valid()
    modifies registry, heap
    ensures registry.Valid() && registry.classRemapping == old(registry.classRemapping)
    ensures (r, Session(registry.objects, heap.nextRef)) == ReadAll(js, old(Session(registry.objects, heap.nextRef)), cp)
    decreases js, 0
  {
    ghost var s0 := Session(registry.objects, heap.nextRef);
    var objectList: seq<Obj> := [];
    var i := 0;
    while i < |js|
      invariant 0 <= i <= |js|
      invariant registry.Valid() && registry.classRemapping == old(registry.classRemapping)
      invariant (Ok(objectList), Session(registry.objects, heap.nextRef)) == ReadAll(js[..i], s0, cp)
    {
      var x := ReadObject(js[i], registry, heap, cp);
      assert js[..i + 1][..i] == js[..i];
      if x.Err? {
        ReadAllStopsAtError(js, i + 1, s0, cp);
        return Err(x.error);
      }
      objectList := objectList + [x.value];
      i := i + 1;
    }
    assert js[..i] == js;
    r := Ok(objectList);
  }
}
