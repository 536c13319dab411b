/**
 * PacketFactory: reads a 2-byte opcode and hands the rest of the stream to
 * the decoder of that packet. `MethodCall.ID` is referred to but never
 * defined, so its value is a parameter, distinct from the two defined ones.
 */
module PacketFactory {
  import opened Wrappers
  import opened CoreValues
  import opened Registry
  import opened ObjectUtil
  import MethodCall
  import FieldFetchCall
  import MethodReturnCall

  /** The packets `fromStream` can produce; NewObjectCall is not among them. */
  datatype Packet =
    | FieldFetch(fieldFetch: FieldFetchCall.FieldFetchCall)
    | Invocation(methodCall: MethodCall.MethodCall)
    | MethodReturn(methodReturn: MethodReturnCall.MethodReturnCall)

  /**
   * `fromStream(in, registry)`. The FieldFetchCall case is modelled as a call
   * of `FieldFetchCall.receive` with the registry, the only signature that
   * method has.
   */
  function FromStream(items: seq<Item>, s: Session, cp: ClassPath, methodCallId: i16): (r: (Result<Packet, Fault>, Session))
    requires s.objects.Valid()
    requires methodCallId != FieldFetchCall.ID && methodCallId != MethodReturnCall.ID
    ensures r.1.objects.Valid()
    ensures (|items| == 0 || !items[0].ShortItem?) ==> r == (Err(UnreadableStream), s)
    ensures r.0.Ok? ==> |items| > 0 && items[0].ShortItem?
    ensures r.0.Ok? && r.0.value.FieldFetch? ==> items[0].value == FieldFetchCall.ID
    ensures r.0.Ok? && r.0.value.Invocation? ==> items[0].value == methodCallId
    ensures r.0.Ok? && r.0.value.MethodReturn? ==> items[0].value == MethodReturnCall.ID
  {
    if |items| == 0 || !items[0].ShortItem? then (Err(UnreadableStream), s)
    else
      var id := items[0].value;
      var rest := items[1..];
      if id == MethodReturnCall.ID then
        var (call, s1) := MethodReturnCall.Decode(rest, s, cp);
        (if call.Err? then Err(call.error) else Ok(MethodReturn(call.value)), s1)
      else if id == methodCallId then
        var call := MethodCall.Decode(rest, s.objects, cp);
        (if call.Err? then Err(call.error) else Ok(Invocation(call.value)), s)
      else if id == FieldFetchCall.ID then
        var (call, s1) := FieldFetchCall.Decode(rest, s, cp);
        (if call.Err? then Err(call.error) else Ok(FieldFetch(call.value)), s1)
      else (Err(UnknownPacketId(id)), s)
  }

  /** Any opcode other than the three known ones is refused, and nothing is read or registered. */
  lemma UnknownOpcode(id: i16, rest: seq<Item>, s: Session, cp: ClassPath, methodCallId: i16)
    requires s.objects.Valid()
    requires methodCallId != FieldFetchCall.ID && methodCallId != MethodReturnCall.ID
    requires id != FieldFetchCall.ID && id != MethodReturnCall.ID && id != methodCallId
    ensures FromStream([ShortItem(id)] + rest, s, cp, methodCallId) == (Err(UnknownPacketId(id)), s)
  {
  }

  /** A field fetch written by `FieldFetchCall.send` is dispatched to its decoder and comes back. */
  lemma FieldFetchDispatch(call: FieldFetchCall.FieldFetchCall, s: Session, cp: ClassPath, methodCallId: i16)
    requires s.objects.Valid()
    requires methodCallId != FieldFetchCall.ID && methodCallId != MethodReturnCall.ID
    requires call.owner != Null ==> Serializable(call.owner, s.objects) && Classified(call.owner, s.objects, cp)
    ensures FromStream(FieldFetchCall.Send(call, s.objects).items, s, cp, methodCallId)
            == (Ok(FieldFetch(FieldFetchCall.FieldFetchCall(call.className, Canon(call.owner, s.objects, cp), call.field))), s)
  {
    FieldFetchCall.RoundTrip(call, s, cp);
  }

  /** A return value written by `MethodReturnCall.send` is dispatched to its decoder and comes back. */
  lemma MethodReturnDispatch(call: MethodReturnCall.MethodReturnCall, s: Session, cp: ClassPath, methodCallId: i16)
    requires s.objects.Valid() && Serializable(call.value, s.objects) && Classified(call.value, s.objects, cp)
    requires methodCallId != FieldFetchCall.ID && methodCallId != MethodReturnCall.ID
    ensures FromStream(MethodReturnCall.Send(call, s.objects).items, s, cp, methodCallId)
            == (Ok(MethodReturn(MethodReturnCall.MethodReturnCall(Canon(call.value, s.objects, cp)))), s)
  {
    MethodReturnCall.RoundTrip(call, s, cp);
  }

  /** A method call framed by its opcode is decoded strictly and leaves the session as it was. */
  lemma InvocationDispatch(rest: seq<Item>, s: Session, cp: ClassPath, methodCallId: i16)
    requires s.objects.Valid()
    requires methodCallId != FieldFetchCall.ID && methodCallId != MethodReturnCall.ID
    ensures FromStream([ShortItem(methodCallId)] + rest, s, cp, methodCallId).1 == s
    ensures FromStream([ShortItem(methodCallId)] + rest, s, cp, methodCallId).0.Ok?
            <==> MethodCall.Decode(rest, s.objects, cp).Ok?
  {
    assert ([ShortItem(methodCallId)] + rest)[1..] == rest;
  }
}
