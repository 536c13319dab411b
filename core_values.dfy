/**
 * The values the runtime bridge moves around: Java integers of fixed width,
 * Java objects as the value codec sees them, the JSON tree Gson builds, the
 * exceptions the bridge throws, and the items a data stream carries.
 */
module CoreValues {
  import opened Wrappers

  newtype i8 = x: int | -0x80 <= x < 0x80
  newtype i16 = x: int | -0x8000 <= x < 0x8000
  newtype i32 = x: int | -0x8000_0000 <= x < 0x8000_0000
  newtype i64 = x: int | -0x8000_0000_0000_0000 <= x < 0x8000_0000_0000_0000

  /*
   * Java's narrowing conversions: the low-order bits of the integer, read back
   * as a two's-complement number (what `(byte)`, `(short)`, `(int)` and
   * `BigDecimal.longValue()` do). A value already in range is unchanged.
   */

  function ToI8(n: int): (r: i8)
    ensures -0x80 <= n < 0x80 ==> r as int == n
  {
    ((n + 0x80) % 0x100 - 0x80) as i8
  }

  function ToI16(n: int): (r: i16)
    ensures -0x8000 <= n < 0x8000 ==> r as int == n
  {
    ((n + 0x8000) % 0x1_0000 - 0x8000) as i16
  }

  function ToI32(n: int): (r: i32)
    ensures -0x8000_0000 <= n < 0x8000_0000 ==> r as int == n
  {
    ((n + 0x8000_0000) % 0x1_0000_0000 - 0x8000_0000) as i32
  }

  function ToI64(n: int): (r: i64)
    ensures -0x8000_0000_0000_0000 <= n < 0x8000_0000_0000_0000 ==> r as int == n
  {
    ((n + 0x8000_0000_0000_0000) % 0x1_0000_0000_0000_0000 - 0x8000_0000_0000_0000) as i64
  }

  /** A boxed primitive (`java.lang.Integer`, ...) or a `java.lang.String`. */
  datatype Prim =
    | Boolean(boolValue: bool)
    | Byte(byteValue: i8)
    | Short(shortValue: i16)
    | Integer(intValue: i32)
    | Long(longValue: i64)
    | Character(charValue: char)
    | Float(floatText: string)    // kept as the literal Java prints; no arithmetic is modelled
    | Double(doubleText: string)
    | String(chars: string)

  /** `getClass().getName()` of a boxed primitive or string. */
  function WrapperClassName(p: Prim): string
  {
    match p
    case Boolean(_) => "java.lang.Boolean"
    case Byte(_) => "java.lang.Byte"
    case Short(_) => "java.lang.Short"
    case Integer(_) => "java.lang.Integer"
    case Long(_) => "java.lang.Long"
    case Character(_) => "java.lang.Character"
    case Float(_) => "java.lang.Float"
    case Double(_) => "java.lang.Double"
    case String(_) => "java.lang.String"
  }

  /**
   * A Java reference as the value codec sees it. An `Instance` is equal only
   * to itself (its `ref` is its identity). Arrays are compared structurally,
   * element by element, where Java's `equals` on arrays is identity.
   */
  datatype Obj =
    | Null
    | Instance(ref: nat, className: string)                // any object the codec cannot look into
    | Array(componentType: string, elements: seq<Obj>)     // an `Object[]` (or a subtype such as `Foo[]`)
    | Collection(className: string, elements: seq<Obj>)    // a `java.util.Collection`, in iteration order
    | Boxed(value: Prim)

  /** `getClass().getName()` for an array whose component class is named `component`. */
  function ArrayClassName(component: string): string
  {
    if |component| > 0 && component[0] == '[' then "[" + component else "[L" + component + ";"
  }

  /** `object.getClass().getName()`; calling it on null is a null dereference. */
  function RuntimeClassName(o: Obj): Result<string, Fault>
  {
    match o
    case Null => Err(NullDereference)
    case Instance(_, c) => Ok(c)
    case Array(c, _) => Ok(ArrayClassName(c))
    case Collection(c, _) => Ok(c)
    case Boxed(p) => Ok(WrapperClassName(p))
  }

  /** The exceptions thrown by the runtime bridge. */
  datatype Fault =
    | ObjectNotFound(key: i64)                  // ObjectRegistry.getObject: no (non-null) object under the key
    | ValueAlreadyPresent                       // HashBiMap.put: the value is bound to another key
    | NullDereference                               // a method called on null
    | UnknownObject(o: Obj)                     // UnsupportedOperationException from the encoders
    | UnexpectedType(tag: string)               // an unknown "type" tag
    | UnexpectedValue(classType: string)        // readPrimitive: an unknown class name
    | UnexpectedCollectionType(classType: string) // toCollection: neither a List nor a Set
    | ClassNotFound(name: string)               // Class.forName failed
    | Malformed(member: string)                 // a Gson accessor on a missing or wrongly shaped member
    | NotAnObject                               // getAsJsonObject on an element that is not a JSON object
    | ObjectNotRegistered(o: Obj)               // MethodCall.send: the target has no handle
    | UnknownPacketId(id: i16)                  // PacketFactory.fromStream
    | UnreadableStream                          // the next item is not what the reader expects, or none is left

  /** The JSON tree Gson builds and parses. */
  datatype Json =
    | JNull
    | JBool(b: bool)
    | JNum(n: int)           // an integral number literal
    | JDec(text: string)     // any other number literal, kept as its text
    | JStr(s: string)
    | JArr(elements: seq<Json>)
    | JObj(members: map<string, Json>)

  /** `jsonObject.get(key).getAsString()`. */
  function GetString(members: map<string, Json>, key: string): (r: Result<string, Fault>)
    ensures r.Ok? <==> key in members && members[key].JStr?
    ensures r.Ok? ==> members[key] == JStr(r.value)
    ensures r.Err? ==> r.error == Malformed(key)
  {
    if key in members && members[key].JStr? then Ok(members[key].s) else Err(Malformed(key))
  }

  /** `jsonObject.get(key).getAsLong()`: the literal narrowed to 64 bits. */
  function GetLong(members: map<string, Json>, key: string): (r: Result<i64, Fault>)
    ensures r.Ok? <==> key in members && members[key].JNum?
    ensures r.Err? ==> r.error == Malformed(key)
  {
    if key in members && members[key].JNum? then Ok(ToI64(members[key].n)) else Err(Malformed(key))
  }

  /** `jsonObject.get(key).getAsJsonArray()`. */
  function GetArray(members: map<string, Json>, key: string): (r: Result<seq<Json>, Fault>)
    ensures r.Ok? <==> key in members && members[key].JArr?
    ensures r.Ok? ==> members[key] == JArr(r.value)
    ensures r.Err? ==> r.error == Malformed(key)
  {
    if key in members && members[key].JArr? then Ok(members[key].elements) else Err(Malformed(key))
  }

  /** What a `DataOutputStream` carries: `writeShort` values and `writeUTF` strings (holding JSON text). */
  datatype Item = ShortItem(value: i16) | UtfItem(payload: Json)

  /**
   * What a `send` leaves in the stream: the items written, and the exception
   * that stopped it, if any (items written before the exception stay written).
   */
  datatype Written = Written(items: seq<Item>, failure: Option<Fault>)

  /** `readUTF()` followed by `JsonParser.parseString`: the payload of the next item. */
  function ReadUtf(items: seq<Item>): (r: Result<Json, Fault>)
    ensures r.Ok? <==> |items| > 0 && items[0].UtfItem?
    ensures r.Ok? ==> items[0] == UtfItem(r.value)
    ensures r.Err? ==> r.error == UnreadableStream
  {
    if |items| > 0 && items[0].UtfItem? then Ok(items[0].payload) else Err(UnreadableStream)
  }
}
