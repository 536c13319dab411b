/**
 * NewObjectCall: the packet announcing a new object by handle and class
 * name. It is written without an opcode and touches no registry.
 */
module NewObjectCall {
  import opened Wrappers
  import opened CoreValues

  /** `record NewObjectCall(long id, String ownerClass)`. */
  datatype NewObjectCall = NewObjectCall(id: i64, ownerClass: string)

  /** The JSON object `send` writes: exactly "id" and "class". */
  function Payload(call: NewObjectCall): (j: Json)
    ensures j.JObj? && j.members.Keys == {"id", "class"}
  {
    JObj(map["id" := JNum(call.id as int), "class" := JStr(call.ownerClass)])
  }

  /** `send(out)`: one UTF string and no opcode. */
  function Send(call: NewObjectCall): (w: Written)
    ensures w.failure.None? && |w.items| == 1 && w.items[0].UtfItem?
  {
    Written([UtfItem(Payload(call))], None)
  }

  /** `receive(in)`: "id" read as a long, "class" as a string. */
  function Receive(items: seq<Item>): (r: Result<NewObjectCall, Fault>)
    ensures r.Ok? ==> ReadUtf(items).Ok? && ReadUtf(items).value.JObj?
    ensures r.Ok? ==> var m := ReadUtf(items).value.members;
      && "class" in m && m["class"] == JStr(r.value.ownerClass)
      && "id" in m && m["id"].JNum? && ToI64(m["id"].n) == r.value.id
  {
    var j :- ReadUtf(items);
    if !j.JObj? then Err(NotAnObject)
    else
      var id :- GetLong(j.members, "id");
      var ownerClass :- GetString(j.members, "class");
      Ok(NewObjectCall(id, ownerClass))
  }

  /** `receive(send(c)) == c`. */
  lemma RoundTrip(call: NewObjectCall)
    ensures Receive(Send(call).items) == Ok(call)
  {
  }

  /** A stream that does not start with a UTF string is refused. */
  lemma ReceiveNeedsUtf(items: seq<Item>)
    requires |items| == 0 || items[0].ShortItem?
    ensures Receive(items) == Err(UnreadableStream)
  {
  }
}
