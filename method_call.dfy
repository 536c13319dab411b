/**
 * MethodCall: the packet asking the other side to invoke `methodName` on a
 * registered object. It carries its own, older copy of the value codec: a
 * registered value is sent as `{objectId, type:"marked"}` without its class,
 * and received with the strict registry lookup, so no placeholder is ever
 * created on this path. Its `readPrimitive` and `toCollection` are the same
 * code as ObjectUtil's and are modelled by that one definition.
 */
module MethodCall {
  import opened Wrappers
  import opened CoreValues
  import opened Registry
  import opened ObjectUtil

  /** `record MethodCall(String methodName, String owner, Object object, Object... parameters)`. */
  datatype MethodCall = MethodCall(methodName: string, owner: string, target: Obj, parameters: seq<Obj>)

  /** A Gson `JsonArray` that `insertData` appends to. */
  class JsonArray {
    var elements: seq<Json>

    constructor ()
      ensures elements == []
    {
      elements := [];
    }
  }

  /** The marked form this encoder uses: the handle and the tag, no class name. */
  function MarkedRef(id: i64): Json
  {
    JObj(map["objectId" := JNum(id as int), "type" := JStr("marked")])
  }

  /** The element `insertData(o, ...)` appends, or the exception it throws. */
  function Encode(o: Obj, objects: BiMap): (r: Result<Json, Fault>)
    requires objects.Valid()
    ensures r.Ok? ==> r.value.JObj? && "type" in r.value.members
    ensures r.Ok? ==> (r.value.members["type"] == JStr("marked") <==> objects.KeyOf(o).Some?)
    decreases o, 1
  {
    match objects.KeyOf(o)
    case Some(k) => Ok(MarkedRef(k))
    case None =>
      match o
      case Array(_, es) =>
        var js :- EncodeAll(es, objects);
        Ok(JObj(map["elements" := JArr(js), "type" := JStr("array")]))
      case Collection(c, es) =>
        var js :- EncodeAll(es, objects);
        Ok(JObj(map["elements" := JArr(js), "type" := JStr("collection"), "class_type" := JStr(c)]))
      case Boxed(p) =>
        Ok(JObj(map["type" := JStr("primitive"), "value" := CreatePrimitive(p), "class_type" := JStr(WrapperClassName(p))]))
      case Null => Err(NullDereference)
      case Instance(_, _) => Err(UnknownObject(o))
  }

  /** The elements `insertData` appends for `es`, one per value and in order; the first failure aborts. */
  function EncodeAll(es: seq<Obj>, objects: BiMap): (r: Result<seq<Json>, Fault>)
    requires objects.Valid()
    ensures r.Ok? ==> |r.value| == |es|
    decreases es, 0
  {
    if |es| == 0 then Ok([])
    else
      var js :- EncodeAll(es[..|es| - 1], objects);
      var j :- Encode(es[|es| - 1], objects);
      Ok(js + [j])
  }

  /** The `i`-th element appended is the encoding of the `i`-th value. */
  lemma {:induction false} EncodeAllElements(es: seq<Obj>, objects: BiMap)
    requires objects.Valid() && EncodeAll(es, objects).Ok?
    ensures forall i | 0 <= i < |es| :: Encode(es[i], objects) == Ok(EncodeAll(es, objects).value[i])
  {
    if |es| > 0 {
      var init := es[..|es| - 1];
      EncodeAllElements(init, objects);
      var js := EncodeAll(init, objects).value;
      var j := Encode(es[|es| - 1], objects).value;
      assert EncodeAll(es, objects).value == js + [j];
      forall i | 0 <= i < |es|
        ensures Encode(es[i], objects) == Ok((js + [j])[i])
      {
        if i < |init| {
          assert es[i] == init[i];
        }
      }
    }
  }

  lemma {:induction false} EncodeAllStopsAtError(es: seq<Obj>, i: nat, objects: BiMap)
    requires objects.Valid() && i <= |es| && EncodeAll(es[..i], objects).Err?
    ensures EncodeAll(es, objects) == EncodeAll(es[..i], objects)
    decreases |es| - i
  {
    if i == |es| {
      assert es[..i] == es;
    } else {
      assert es[..i + 1][..i] == es[..i];
      EncodeAllStopsAtError(es, i + 1, objects);
    }
  }

  /**
   * The values `insertData` accepts: any registered value (null included,
   * since nothing is asked of a registered value), and unregistered arrays
   * and collections of such values, boxed primitives and strings.
   */
  ghost predicate Insertable(o: Obj, objects: BiMap)
    requires objects.Valid()
  {
    if objects.KeyOf(o).Some? then true
    else match o
      case Array(_, es) => forall i | 0 <= i < |es| :: Insertable(es[i], objects)
      case Collection(_, es) => forall i | 0 <= i < |es| :: Insertable(es[i], objects)
      case Boxed(_) => true
      case _ => false
  }

  /** `insertData` succeeds exactly on the insertable values. */
  lemma {:induction false} EncodeOkIff(o: Obj, objects: BiMap)
    requires objects.Valid()
    ensures Encode(o, objects).Ok? <==> Insertable(o, objects)
    decreases o, 1
  {
    if objects.KeyOf(o).None? {
      match o
      case Array(_, es) => EncodeAllOkIff(es, objects);
      case Collection(_, es) => EncodeAllOkIff(es, objects);
      case _ =>
    }
  }

  lemma {:induction false} EncodeAllOkIff(es: seq<Obj>, objects: BiMap)
    requires objects.Valid()
    ensures EncodeAll(es, objects).Ok? <==> forall i | 0 <= i < |es| :: Insertable(es[i], objects)
    decreases es, 0
  {
    if |es| > 0 {
      var init := es[..|es| - 1];
      EncodeAllOkIff(init, objects);
      EncodeOkIff(es[|es| - 1], objects);
      if forall i | 0 <= i < |es| :: Insertable(es[i], objects) {
        forall i | 0 <= i < |init|
          ensures Insertable(init[i], objects)
        {
          assert init[i] == es[i];
        }
      }
      if EncodeAll(es, objects).Ok? {
        assert EncodeAll(init, objects).Ok? && Encode(es[|es| - 1], objects).Ok?;
        forall i | 0 <= i < |es|
          ensures Insertable(es[i], objects)
        {
          if i < |init| {
            assert es[i] == init[i];
          }
        }
      }
    }
  }

  /**
   * The two encoders disagree on registered values: this one sends no class
   * name, and it accepts a registered null, on which `serializeData` throws.
   */
  lemma MarkedEncodingsDiffer(o: Obj, objects: BiMap)
    requires objects.Valid() && objects.KeyOf(o).Some?
    ensures Encode(o, objects) == Ok(MarkedRef(objects.KeyOf(o).value))
    ensures "class_type" !in Encode(o, objects).value.members
    ensures o == Null <==> SerializeData(o, objects).Err?
    ensures o != Null ==>
      SerializeData(o, objects).value.members
      == Encode(o, objects).value.members["class_type" := JStr(RuntimeClassName(o).value)]
  {
  }

  /**
   * `insertData(object, jsonArray, registry)`: appends the encoding of
   * `object` to `out`. Nested arrays and collections are built in fresh
   * arrays, so a failure leaves `out` as it was.
   */
  method InsertData(o: Obj, out: JsonArray, registry: ObjectRegistry) returns (r: Result<(), Fault>)
    requires registry.Valid()
    modifies out
    ensures r.Ok? <==> Encode(o, registry.objects).Ok?
    ensures r.Ok? ==> out.elements == old(out.elements) + [Encode(o, registry.objects).value]
    ensures r.Err? ==> r.error == Encode(o, registry.objects).error && out.elements == old(out.elements)
    decreases o, 1
  {
    var objectId := registry.GetKey(o);
    if objectId.Some? {
      out.elements := out.elements + [MarkedRef(objectId.value)];
      return Ok(());
    }
    match o
    case Array(_, es) =>
      var elementJson :- InsertElements(es, registry);
      out.elements := out.elements + [JObj(map["elements" := JArr(elementJson), "type" := JStr("array")])];
      r := Ok(());
    case Collection(c, es) =>
      var elementJson :- InsertElements(es, registry);
      out.elements := out.elements + [JObj(map["elements" := JArr(elementJson), "type" := JStr("collection"),
                                                "class_type" := JStr(c)])];
      r := Ok(());
    case Boxed(p) =>
      out.elements := out.elements + [JObj(map["type" := JStr("primitive"), "value" := CreatePrimitive(p),
                                                "class_type" := JStr(WrapperClassName(p))])];
      r := Ok(());
    case Null =>
      r := Err(NullDereference);
    case Instance(_, _) =>
      r := Err(UnknownObject(o));
  }

  /** The loop `insertData` runs over an array's or a collection's elements, into a fresh `JsonArray`. */
  method InsertElements(es: seq<Obj>, registry: ObjectRegistry) returns (r: Result<seq<Json>, Fault>)
    requires registry.Valid()
    ensures r == EncodeAll(es, registry.objects)
    decreases es, 0
  {
    var elementJson := new JsonArray();
    var i := 0;
    while i < |es|
      invariant 0 <= i <= |es|
      invariant EncodeAll(es[..i], registry.objects) == Ok(elementJson.elements)
    {
      var inserted := InsertData(es[i], elementJson, registry);
      assert es[..i + 1][..i] == es[..i];
      if inserted.Err? {
        EncodeAllStopsAtError(es, i + 1, registry.objects);
        return Err(inserted.error);
      }
      i := i + 1;
    }
    assert es[..i] == es;
    r := Ok(elementJson.elements);
  }

  /** The JSON object `send` writes. */
  function ToJson(call: MethodCall, objects: BiMap): (r: Result<Json, Fault>)
    requires objects.Valid()
    ensures r.Ok? <==> objects.KeyOf(call.target).Some? && EncodeAll(call.parameters, objects).Ok?
    ensures objects.KeyOf(call.target).None? ==> r == Err(ObjectNotRegistered(call.target))
    ensures r.Ok? ==> r.value.JObj? && r.value.members.Keys == {"method", "owner", "objectId", "parameters"}
    ensures r.Ok? ==> var m := r.value.members;
      && m["method"] == JStr(call.methodName) && m["owner"] == JStr(call.owner)
      && m["objectId"] == JNum(objects.KeyOf(call.target).value as int)
      && m["parameters"].JArr? && |m["parameters"].elements| == |call.parameters|
      && forall i | 0 <= i < |call.parameters| :: Encode(call.parameters[i], objects) == Ok(m["parameters"].elements[i])
  {
    match objects.KeyOf(call.target)
    case None => Err(ObjectNotRegistered(call.target))
    case Some(id) =>
      var ps :- EncodeAll(call.parameters, objects);
      EncodeAllElements(call.parameters, objects);
      Ok(JObj(map["method" := JStr(call.methodName), "owner" := JStr(call.owner),
                  "objectId" := JNum(id as int), "parameters" := JArr(ps)]))
  }

  /** `send(out, registry)`: the items written (one UTF string, no opcode), or the exception. */
  method Send(call: MethodCall, registry: ObjectRegistry) returns (r: Result<seq<Item>, Fault>)
    requires registry.Valid()
    ensures r.Ok? <==> ToJson(call, registry.objects).Ok?
    ensures r.Ok? ==> r.value == [UtfItem(ToJson(call, registry.objects).value)]
    ensures r.Err? ==> r.error == ToJson(call, registry.objects).error
  {
    var objectId := registry.GetKey(call.target);
    if objectId.None? {
      return Err(ObjectNotRegistered(call.target));
    }
    var parametersJson :- InsertElements(call.parameters, registry);
    r := Ok([UtfItem(JObj(map["method" := JStr(call.methodName), "owner" := JStr(call.owner),
                              "objectId" := JNum(objectId.value as int), "parameters" := JArr(parametersJson)]))]);
  }

  /** One element of `readArray`: handles are resolved strictly, nothing is registered. */
  function DecodeElement(j: Json, objects: BiMap, cp: ClassPath): (r: Result<Obj, Fault>)
    requires objects.Valid()
    decreases j, 1
  {
    if !j.JObj? then Err(NotAnObject)
    else
      var m := j.members;
      var tag :- GetString(m, "type");
      if tag == "marked" then
        var id :- GetLong(m, "objectId");
        objects.Get(id)
      else if tag == "array" then
        var js :- GetArray(m, "elements");
        var xs :- DecodeAll(js, objects, cp);
        Ok(Array(ObjectClass, xs))
      else if tag == "collection" then
        var js :- GetArray(m, "elements");
        var xs :- DecodeAll(js, objects, cp);
        var c :- GetString(m, "class_type");
        ToCollection(xs, c, cp)
      else if tag == "primitive" then ReadPrimitiveMember(m)
      else Err(UnexpectedType(tag))
  }

  /** `readArray(elements, registry)`: every element decoded, in order. */
  function DecodeAll(js: seq<Json>, objects: BiMap, cp: ClassPath): (r: Result<seq<Obj>, Fault>)
    requires objects.Valid()
    ensures r.Ok? ==> |r.value| == |js|
    decreases js, 0
  {
    if |js| == 0 then Ok([])
    else
      var xs :- DecodeAll(js[..|js| - 1], objects, cp);
      var x :- DecodeElement(js[|js| - 1], objects, cp);
      Ok(xs + [x])
  }

  lemma {:induction false} DecodeAllStopsAtError(js: seq<Json>, i: nat, objects: BiMap, cp: ClassPath)
    requires objects.Valid() && i <= |js| && DecodeAll(js[..i], objects, cp).Err?
    ensures DecodeAll(js, objects, cp) == DecodeAll(js[..i], objects, cp)
    decreases |js| - i
  {
    if i == |js| {
      assert js[..i] == js;
    } else {
      assert js[..i + 1][..i] == js[..i];
      DecodeAllStopsAtError(js, i + 1, objects, cp);
    }
  }

  /** `receive(in, registry)` on the items left in the stream. */
  function Decode(items: seq<Item>, objects: BiMap, cp: ClassPath): (r: Result<MethodCall, Fault>)
    requires objects.Valid()
    ensures r.Ok? ==> r.value.target != Null && r.value.target in objects.forward.Values
  {
    var j :- ReadUtf(items);
    if !j.JObj? then Err(NotAnObject)
    else
      var m := j.members;
      var methodName :- GetString(m, "method");
      var owner :- GetString(m, "owner");
      var id :- GetLong(m, "objectId");
      var target :- objects.Get(id);
      var js :- GetArray(m, "parameters");
      var parameters :- DecodeAll(js, objects, cp);
      Ok(MethodCall(methodName, owner, target, parameters))
  }

  /** The loop body of `readArray`: the switch on the element's tag. */
  method ReadElement(j: Json, registry: ObjectRegistry, cp: ClassPath) returns (r: Result<Obj, Fault>)
    requires registry.Valid()
    ensures r == DecodeElement(j, registry.objects, cp)
    decreases j, 1
  {
    if !j.JObj? {
      return Err(NotAnObject);
    }
    var m := j.members;
    var tag :- GetString(m, "type");
    if tag == "marked" {
      var id :- GetLong(m, "objectId");
      r := registry.GetObject(id);
    } else if tag == "array" {
      var js :- GetArray(m, "elements");
      var xs :- ReadArray(js, registry, cp);
      r := Ok(Array(ObjectClass, xs));
    } else if tag == "collection" {
      var js :- GetArray(m, "elements");
      var xs :- ReadArray(js, registry, cp);
      var c :- GetString(m, "class_type");
      r := ToCollection(xs, c, cp);
    } else if tag == "primitive" {
      r := ReadPrimitiveMember(m);
    } else {
      r := Err(UnexpectedType(tag));
    }
  }

  /** `readArray(elements, registry)`: reads the registry, never changes it. */
  method ReadArray(js: seq<Json>, registry: ObjectRegistry, cp: ClassPath) returns (r: Result<seq<Obj>, Fault>)
    requires registry.Valid()
    ensures r == DecodeAll(js, registry.objects, cp)
    decreases js, 0
  {
    var objectList: seq<Obj> := [];
    var i := 0;
    while i < |js|
      invariant 0 <= i <= |js|
      invariant DecodeAll(js[..i], registry.objects, cp) == Ok(objectList)
    {
      var x := ReadElement(js[i], registry, cp);
      assert js[..i + 1][..i] == js[..i];
      if x.Err? {
        DecodeAllStopsAtError(js, i + 1, registry.objects, cp);
        return Err(x.error);
      }
      objectList := objectList + [x.value];
      i := i + 1;
    }
    assert js[..i] == js;
    r := Ok(objectList);
  }

  /** `receive(in, registry)`: the call read from the stream's next UTF string. */
  method Receive(items: seq<Item>, registry: ObjectRegistry, cp: ClassPath) returns (r: Result<MethodCall, Fault>)
    requires registry.Valid()
    ensures r == Decode(items, registry.objects, cp)
  {
    var j :- ReadUtf(items);
    if !j.JObj? {
      return Err(NotAnObject);
    }
    var m := j.members;
    var methodName :- GetString(m, "method");
    var owner :- GetString(m, "owner");
    var id :- GetLong(m, "objectId");
    var target :- registry.GetObject(id);
    var js :- GetArray(m, "parameters");
    var parameters :- ReadArray(js, registry, cp);
    r := Ok(MethodCall(methodName, owner, target, parameters));
  }

  /*
   * Round trip. On the same registry, receiving what `send` wrote gives back
   * the method name, the owner, the very target object, and the parameters
   * as the decoder rebuilds them (see ObjectUtil.Canon).
   */

  lemma {:induction false} RoundTripElement(v: Obj, objects: BiMap, cp: ClassPath)
    requires objects.Valid() && Serializable(v, objects) && Classified(v, objects, cp)
    ensures Encode(v, objects).Ok?
    ensures DecodeElement(Encode(v, objects).value, objects, cp) == Ok(Canon(v, objects, cp))
    decreases v, 1
  {
    if objects.KeyOf(v).None? {
      match v
      case Array(_, es) =>
        RoundTripElements(es, objects, cp);
        DecodeArrayJson(EncodeAll(es, objects).value, objects, cp);
      case Collection(c, es) =>
        RoundTripElements(es, objects, cp);
        DecodeCollectionJson(EncodeAll(es, objects).value, c, objects, cp);
      case Boxed(p) =>
        ReadPrimitiveRoundTrip(p);
    }
  }

  lemma {:induction false} RoundTripElements(es: seq<Obj>, objects: BiMap, cp: ClassPath)
    requires objects.Valid()
    requires forall i | 0 <= i < |es| :: Serializable(es[i], objects) && Classified(es[i], objects, cp)
    ensures EncodeAll(es, objects).Ok?
    ensures DecodeAll(EncodeAll(es, objects).value, objects, cp) == Ok(CanonAll(es, objects, cp))
    decreases es, 0
  {
    if |es| > 0 {
      var init := es[..|es| - 1];
      RoundTripElements(init, objects, cp);
      RoundTripElement(es[|es| - 1], objects, cp);
      var js := EncodeAll(es, objects).value;
      assert js[..|js| - 1] == EncodeAll(init, objects).value;
    }
  }

  lemma DecodeArrayJson(js: seq<Json>, objects: BiMap, cp: ClassPath)
    requires objects.Valid() && DecodeAll(js, objects, cp).Ok?
    ensures DecodeElement(JObj(map["elements" := JArr(js), "type" := JStr("array")]), objects, cp)
            == Ok(Array(ObjectClass, DecodeAll(js, objects, cp).value))
  {
  }

  lemma DecodeCollectionJson(js: seq<Json>, c: string, objects: BiMap, cp: ClassPath)
    requires objects.Valid() && DecodeAll(js, objects, cp).Ok?
    ensures DecodeElement(JObj(map["elements" := JArr(js), "type" := JStr("collection"), "class_type" := JStr(c)]), objects, cp)
            == ToCollection(DecodeAll(js, objects, cp).value, c, cp)
  {
  }

  /** Decoding the object `send` writes: the four members, read back in turn. */
  lemma DecodeMessage(methodName: string, owner: string, id: i64, ps: seq<Json>, objects: BiMap, cp: ClassPath)
    requires objects.Valid() && id in objects.forward && objects.forward[id] != Null
    requires DecodeAll(ps, objects, cp).Ok?
    ensures Decode([UtfItem(JObj(map["method" := JStr(methodName), "owner" := JStr(owner),
                                     "objectId" := JNum(id as int), "parameters" := JArr(ps)]))], objects, cp)
            == Ok(MethodCall(methodName, owner, objects.forward[id], DecodeAll(ps, objects, cp).value))
  {
    var m := map["method" := JStr(methodName), "owner" := JStr(owner),
                 "objectId" := JNum(id as int), "parameters" := JArr(ps)];
    assert GetLong(m, "objectId") == Ok(id);
  }

  /** `receive(send(call))` on one registry. */
  lemma RoundTrip(call: MethodCall, objects: BiMap, cp: ClassPath)
    requires objects.Valid() && objects.KeyOf(call.target).Some? && call.target != Null
    requires forall i | 0 <= i < |call.parameters| ::
      Serializable(call.parameters[i], objects) && Classified(call.parameters[i], objects, cp)
    ensures ToJson(call, objects).Ok?
    ensures Decode([UtfItem(ToJson(call, objects).value)], objects, cp)
            == Ok(MethodCall(call.methodName, call.owner, call.target, CanonAll(call.parameters, objects, cp)))
  {
    RoundTripElements(call.parameters, objects, cp);
    var id := objects.KeyOf(call.target).value;
    var ps := EncodeAll(call.parameters, objects).value;
    DecodeMessage(call.methodName, call.owner, id, ps, objects, cp);
  }

  /**
   * A handle the registry does not know is an error here, where ObjectUtil
   * would register a placeholder; and ObjectUtil cannot read this encoder's
   * marked form of such a handle at all, for want of a class name.
   */
  lemma UnknownHandleRejected(id: i64, s: Session, cp: ClassPath)
    requires s.objects.Valid() && id !in s.objects.forward
    ensures DecodeElement(MarkedRef(id), s.objects, cp) == Err(ObjectNotFound(id))
    ensures Read(MarkedRef(id), s, cp) == (Err(Malformed("class_type")), s)
  {
  }

  /**
   * `Arrays.deepEquals` on two elements: arrays are compared element by
   * element whatever their component class; anything else with `equals`.
   */
  predicate DeepEquals(a: Obj, b: Obj)
  {
    if a.Array? && b.Array? then
      |a.elements| == |b.elements| && forall i | 0 <= i < |a.elements| :: DeepEquals(a.elements[i], b.elements[i])
    else a == b
  }

  predicate DeepEqualsAll(xs: seq<Obj>, ys: seq<Obj>)
  {
    |xs| == |ys| && forall i | 0 <= i < |xs| :: DeepEquals(xs[i], ys[i])
  }

  /*
   * The calls of MethodCallTest: three registered objects under handles 0, 1
   * and 2, and four calls on the first of them.
   */

  const TestObjectClass: string := "org.mockbukkit.integrationtester.core.io.MethodCallTest$TestObject"

  function TestRegistry(): BiMap
  {
    BiMap(map[0 := Instance(0, ObjectClass), 1 := Instance(1, TestObjectClass), 2 := Instance(2, TestObjectClass)],
          map[Instance(0, ObjectClass) := 0, Instance(1, TestObjectClass) := 1, Instance(2, TestObjectClass) := 2])
  }

  function TestCalls(): seq<MethodCall>
  {
    var object1 := Instance(0, ObjectClass);
    var object2 := Instance(1, TestObjectClass);
    var object3 := Instance(2, TestObjectClass);
    [ MethodCall("hello", "world", object1, [object2, object3]),
      MethodCall("hello", "world!", object1, [Array(TestObjectClass, [object2, object3])]),
      MethodCall("hello", "world!", object1, [Collection(ArrayListClass, [object3, object2])]),
      MethodCall("hello", "world!", object1, [Boxed(Boolean(true))]) ]
  }

  /** Receiving what was sent gives deep-equal parameters whenever the rebuilt ones are deep-equal. */
  lemma SendReceiveDeepEquals(call: MethodCall, objects: BiMap, cp: ClassPath)
    requires objects.Valid() && objects.KeyOf(call.target).Some? && call.target != Null
    requires forall i | 0 <= i < |call.parameters| ::
      Serializable(call.parameters[i], objects) && Classified(call.parameters[i], objects, cp)
    requires DeepEqualsAll(call.parameters, CanonAll(call.parameters, objects, cp))
    ensures ToJson(call, objects).Ok?
    ensures var out := Decode([UtfItem(ToJson(call, objects).value)], objects, cp);
      && out.Ok? && out.value.methodName == call.methodName && out.value.owner == call.owner
      && DeepEqualsAll(call.parameters, out.value.parameters) && out.value.target == call.target
  {
    RoundTrip(call, objects, cp);
  }

  lemma TestRegistryFacts()
    ensures TestRegistry().Valid()
    ensures TestRegistry().KeyOf(Instance(0, ObjectClass)) == Some(0)
    ensures TestRegistry().KeyOf(Instance(1, TestObjectClass)) == Some(1)
    ensures TestRegistry().KeyOf(Instance(2, TestObjectClass)) == Some(2)
  {
  }

  /** Each test call survives send and receive: same name and owner, deep-equal parameters, same target. */
  lemma TestCallsRoundTrip(k: nat, cp: ClassPath)
    requires k < |TestCalls()| && ArrayListClass in cp.loadable && ArrayListClass in cp.lists
    ensures TestRegistry().Valid()
    ensures ToJson(TestCalls()[k], TestRegistry()).Ok?
    ensures var call := TestCalls()[k];
      var out := Decode([UtfItem(ToJson(call, TestRegistry()).value)], TestRegistry(), cp);
      && out.Ok? && out.value.methodName == call.methodName && out.value.owner == call.owner
      && DeepEqualsAll(call.parameters, out.value.parameters) && out.value.target == call.target
  {
    TestRegistryFacts();
    var objects := TestRegistry();
    var call := TestCalls()[k];
    var object2 := Instance(1, TestObjectClass);
    var object3 := Instance(2, TestObjectClass);
    if k == 0 {
      TestCall0(objects, cp);
    } else if k == 1 {
      TestCall1(objects, cp);
    } else if k == 2 {
      TestCall2(objects, cp);
    } else {
      TestCall3(objects, cp);
    }
    SendReceiveDeepEquals(call, objects, cp);
  }

  /** Registered non-null values are sent as handles and read back as themselves. */
  lemma {:induction false} RegisteredElements(es: seq<Obj>, objects: BiMap, cp: ClassPath)
    requires objects.Valid()
    requires forall i | 0 <= i < |es| :: objects.KeyOf(es[i]).Some? && es[i] != Null
    ensures forall i | 0 <= i < |es| :: Serializable(es[i], objects) && Classified(es[i], objects, cp)
    ensures CanonAll(es, objects, cp) == es
  {
    if |es| > 0 {
      RegisteredElements(es[..|es| - 1], objects, cp);
      assert es == es[..|es| - 1] + [es[|es| - 1]];
    }
  }

  lemma TestCall0(objects: BiMap, cp: ClassPath)
    requires objects == TestRegistry() && objects.Valid()
    requires objects.KeyOf(Instance(1, TestObjectClass)) == Some(1) && objects.KeyOf(Instance(2, TestObjectClass)) == Some(2)
    ensures var ps := TestCalls()[0].parameters;
      && (forall i | 0 <= i < |ps| :: Serializable(ps[i], objects) && Classified(ps[i], objects, cp))
      && DeepEqualsAll(ps, CanonAll(ps, objects, cp))
  {
    var ps := TestCalls()[0].parameters;
    RegisteredElements(ps, objects, cp);
  }

  lemma TestCall1(objects: BiMap, cp: ClassPath)
    requires objects == TestRegistry() && objects.Valid()
    requires objects.KeyOf(Instance(1, TestObjectClass)) == Some(1) && objects.KeyOf(Instance(2, TestObjectClass)) == Some(2)
    ensures var ps := TestCalls()[1].parameters;
      && (forall i | 0 <= i < |ps| :: Serializable(ps[i], objects) && Classified(ps[i], objects, cp))
      && DeepEqualsAll(ps, CanonAll(ps, objects, cp))
  {
    var ps := TestCalls()[1].parameters;
    var members := [Instance(1, TestObjectClass), Instance(2, TestObjectClass)];
    assert ps == [Array(TestObjectClass, members)];
    RegisteredElements(members, objects, cp);
    assert objects.KeyOf(ps[0]).None?;
    assert Canon(ps[0], objects, cp) == Array(ObjectClass, members);
    assert ps[..0] == [];
    assert CanonAll(ps, objects, cp) == [Array(ObjectClass, members)];
  }

  lemma TestCall2(objects: BiMap, cp: ClassPath)
    requires objects == TestRegistry() && objects.Valid()
    requires ArrayListClass in cp.loadable && ArrayListClass in cp.lists
    requires objects.KeyOf(Instance(1, TestObjectClass)) == Some(1) && objects.KeyOf(Instance(2, TestObjectClass)) == Some(2)
    ensures var ps := TestCalls()[2].parameters;
      && (forall i | 0 <= i < |ps| :: Serializable(ps[i], objects) && Classified(ps[i], objects, cp))
      && DeepEqualsAll(ps, CanonAll(ps, objects, cp))
  {
    var ps := TestCalls()[2].parameters;
    var members := [Instance(2, TestObjectClass), Instance(1, TestObjectClass)];
    assert ps == [Collection(ArrayListClass, members)];
    RegisteredElements(members, objects, cp);
    assert objects.KeyOf(ps[0]).None?;
    assert Canon(ps[0], objects, cp) == ps[0];
    assert ps[..0] == [];
    assert CanonAll(ps, objects, cp) == ps;
  }

  lemma TestCall3(objects: BiMap, cp: ClassPath)
    requires objects == TestRegistry() && objects.Valid()
    ensures var ps := TestCalls()[3].parameters;
      && (forall i | 0 <= i < |ps| :: Serializable(ps[i], objects) && Classified(ps[i], objects, cp))
      && DeepEqualsAll(ps, CanonAll(ps, objects, cp))
  {
    var ps := TestCalls()[3].parameters;
    assert ps == [Boxed(Boolean(true))];
    assert objects.KeyOf(ps[0]).None?;
    assert Serializable(ps[0], objects) && Classified(ps[0], objects, cp);
    assert ps[..0] == [];
  }
}
