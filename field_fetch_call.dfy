/**
 * FieldFetchCall: the packet asking for the value of a field. It is framed
 * by the opcode 0, and its owner object, when there is one, travels through
 * the ObjectUtil codec.
 */
module FieldFetchCall {
  import opened Wrappers
  import opened CoreValues
  import opened Registry
  import opened ObjectUtil

  const ID: i16 := 0

  /** `record FieldFetchCall(String className, @Nullable Object owner, String field)`; `Null` is an absent owner. */
  datatype FieldFetchCall = FieldFetchCall(className: string, owner: Obj, field: string)

  /** The JSON object `send` writes: "field" and "class" always, "owner" only for a non-null owner. */
  function Payload(call: FieldFetchCall, objects: BiMap): (r: Result<Json, Fault>)
    requires objects.Valid()
    ensures r.Err? <==> call.owner != Null && SerializeData(call.owner, objects).Err?
    ensures r.Ok? ==> r.value.JObj?
    ensures r.Ok? ==> var m := r.value.members;
      && "field" in m && m["field"] == JStr(call.field)
      && "class" in m && m["class"] == JStr(call.className)
      && ("owner" in m <==> call.owner != Null)
      && (call.owner != Null ==> m["owner"] == SerializeData(call.owner, objects).value)
  {
    var m := map["field" := JStr(call.field), "class" := JStr(call.className)];
    if call.owner == Null then Ok(JObj(m))
    else
      var owner :- SerializeData(call.owner, objects);
      Ok(JObj(m["owner" := owner]))
  }

  /** `send(out, registry)`: the opcode, then the payload as a UTF string. */
  function Send(call: FieldFetchCall, objects: BiMap): (w: Written)
    requires objects.Valid()
    ensures |w.items| > 0 && w.items[0] == ShortItem(ID)
  {
    match Payload(call, objects)
    case Ok(j) => Written([ShortItem(ID), UtfItem(j)], None)
    case Err(e) => Written([ShortItem(ID)], Some(e))
  }

  /**
   * `receive(in, registry)`: "class" is read, then the owner (which may
   * register a placeholder), then "field".
   */
  function Decode(items: seq<Item>, s: Session, cp: ClassPath): (r: (Result<FieldFetchCall, Fault>, Session))
    requires s.objects.Valid()
    ensures r.1.objects.Valid()
    ensures r.0.Ok? ==> ReadUtf(items).Ok? && ReadUtf(items).value.JObj?
    ensures r.0.Ok? ==> (r.0.value.owner == Null <==> "owner" !in ReadUtf(items).value.members)
  {
    match ReadUtf(items)
    case Err(e) => (Err(e), s)
    case Ok(j) =>
      if !j.JObj? then (Err(NotAnObject), s)
      else
        var m := j.members;
        match GetString(m, "class")
        case Err(e) => (Err(e), s)
        case Ok(c) =>
          var (owner, s1) := if "owner" in m then Read(m["owner"], s, cp) else (Ok(Null), s);
          if owner.Err? then (Err(owner.error), s1)
          else
            match GetString(m, "field")
            case Err(e) => (Err(e), s1)
            case Ok(f) => (Ok(FieldFetchCall(c, owner.value, f)), s1)
  }

  /** `receive(in, registry)` on the live registry. */
  method Receive(items: seq<Item>, registry: ObjectRegistry, heap: Heap, cp: ClassPath) returns (r: Result<FieldFetchCall, Fault>)
    requires registry.Valid()
    modifies registry, heap
    ensures registry.Valid() && registry.classRemapping == old(registry.classRemapping)
    ensures (r, Session(registry.objects, heap.nextRef)) == Decode(items, old(Session(registry.objects, heap.nextRef)), cp)
  {
    var j :- ReadUtf(items);
    if !j.JObj? {
      return Err(NotAnObject);
    }
    var m := j.members;
    var className :- GetString(m, "class");
    var owner := Null;
    if "owner" in m {
      owner :- ReadObject(m["owner"], registry, heap, cp);
    }
    var field :- GetString(m, "field");
    r := Ok(FieldFetchCall(className, owner, field));
  }

  /** `send` fails, after writing the opcode, exactly when a non-null owner cannot be serialized. */
  lemma SendFailsIff(call: FieldFetchCall, objects: BiMap)
    requires objects.Valid()
    ensures Send(call, objects).failure.Some? <==> call.owner != Null && !Serializable(call.owner, objects)
    ensures Send(call, objects).failure.Some? ==> Send(call, objects).items == [ShortItem(ID)]
  {
    if call.owner != Null {
      SerializeOkIff(call.owner, objects);
    }
  }

  /**
   * Once the opcode has been consumed, receiving what was sent on the same
   * registry gives back the class name, the field name and the owner
   * (rebuilt as ObjectUtil.Canon says), and registers nothing.
   */
  lemma RoundTrip(call: FieldFetchCall, s: Session, cp: ClassPath)
    requires s.objects.Valid()
    requires call.owner != Null ==> Serializable(call.owner, s.objects) && Classified(call.owner, s.objects, cp)
    ensures Send(call, s.objects).failure.None?
    ensures Decode(Send(call, s.objects).items[1..], s, cp)
            == (Ok(FieldFetchCall(call.className, Canon(call.owner, s.objects, cp), call.field)), s)
  {
    if call.owner != Null {
      ObjectUtil.RoundTrip(call.owner, s, cp);
    }
  }

  /** `receive` does not read the opcode: on the stream exactly as `send` wrote it, it fails. */
  lemma OpcodeNotConsumed(call: FieldFetchCall, s: Session, cp: ClassPath)
    requires s.objects.Valid()
    ensures Decode(Send(call, s.objects).items, s, cp) == (Err(UnreadableStream), s)
  {
  }
}
