/**
 * MethodReturnCall: the packet carrying the value a call returned. It is
 * framed by the opcode 2, and its payload is exactly the ObjectUtil encoding
 * of the value.
 */
module MethodReturnCall {
  import opened Wrappers
  import opened CoreValues
  import opened Registry
  import opened ObjectUtil

  const ID: i16 := 2

  /** `record MethodReturnCall(Object value)`. */
  datatype MethodReturnCall = MethodReturnCall(value: Obj)

  /** `send(out, registry)`: the opcode, then `serializeData(value)` as a UTF string. */
  function Send(call: MethodReturnCall, objects: BiMap): (w: Written)
    requires objects.Valid()
    ensures |w.items| > 0 && w.items[0] == ShortItem(ID)
    ensures w.failure.None? <==> SerializeData(call.value, objects).Ok?
    ensures w.failure.None? ==> w.items == [ShortItem(ID), UtfItem(SerializeData(call.value, objects).value)]
  {
    match SerializeData(call.value, objects)
    case Ok(j) => Written([ShortItem(ID), UtfItem(j)], None)
    case Err(e) => Written([ShortItem(ID)], Some(e))
  }

  /** `receive(in, registry)`: `readObject` of the next UTF payload. */
  function Decode(items: seq<Item>, s: Session, cp: ClassPath): (r: (Result<MethodReturnCall, Fault>, Session))
    requires s.objects.Valid()
    ensures r.1.objects.Valid()
  {
    match ReadUtf(items)
    case Err(e) => (Err(e), s)
    case Ok(j) =>
      var (value, s1) := Read(j, s, cp);
      if value.Err? then (Err(value.error), s1) else (Ok(MethodReturnCall(value.value)), s1)
  }

  /** `receive(in, registry)` on the live registry. */
  method Receive(items: seq<Item>, registry: ObjectRegistry, heap: Heap, cp: ClassPath) returns (r: Result<MethodReturnCall, Fault>)
    requires registry.Valid()
    modifies registry, heap
    ensures registry.Valid() && registry.classRemapping == old(registry.classRemapping)
    ensures (r, Session(registry.objects, heap.nextRef)) == Decode(items, old(Session(registry.objects, heap.nextRef)), cp)
  {
    var j :- ReadUtf(items);
    var value :- ReadObject(j, registry, heap, cp);
    r := Ok(MethodReturnCall(value));
  }

  /** Unsupported values fail at send time, after the opcode has been written. */
  lemma SendFailsIff(call: MethodReturnCall, objects: BiMap)
    requires objects.Valid()
    ensures Send(call, objects).failure.Some? <==> !Serializable(call.value, objects)
    ensures Send(call, objects).failure.Some? ==> Send(call, objects).items == [ShortItem(ID)]
  {
    SerializeOkIff(call.value, objects);
  }

  /** With the opcode stripped and the same registry, the value comes back (as ObjectUtil.Canon says). */
  lemma RoundTrip(call: MethodReturnCall, s: Session, cp: ClassPath)
    requires s.objects.Valid() && Serializable(call.value, s.objects) && Classified(call.value, s.objects, cp)
    ensures Send(call, s.objects).failure.None?
    ensures Decode(Send(call, s.objects).items[1..], s, cp) == (Ok(MethodReturnCall(Canon(call.value, s.objects, cp))), s)
  {
    ObjectUtil.RoundTrip(call.value, s, cp);
  }

  /** `receive` does not read the opcode: on the stream exactly as `send` wrote it, it fails. */
  lemma OpcodeNotConsumed(call: MethodReturnCall, s: Session, cp: ClassPath)
    requires s.objects.Valid()
    ensures Decode(Send(call, s.objects).items, s, cp) == (Err(UnreadableStream), s)
  {
  }

  /** A returned handle the receiver does not know becomes a new placeholder bound under that handle. */
  lemma UnknownHandleRegistered(id: i64, classType: string, s: Session, cp: ClassPath)
    requires Consistent(s) && id !in s.objects.forward
    ensures Decode([UtfItem(MarkedJson(id, classType))], s, cp).0 == Ok(MethodReturnCall(Instance(s.nextRef, classType)))
    ensures Decode([UtfItem(MarkedJson(id, classType))], s, cp).1.objects.forward
            == s.objects.forward[id := Instance(s.nextRef, classType)]
  {
    ReadMarkedUnknown(id, classType, s, cp);
  }
}
