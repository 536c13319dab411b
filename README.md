# paper-integration-tester, modelled in Dafny

This project models the core of MockBukkit's paper-integration-tester. Two
halves of it are covered.

**The runtime bridge** (`core`): a test client and a Paper server exchange
packets over a stream. Each side keeps an `ObjectRegistry`, a bidirectional
table from 64-bit handles to live objects. `ObjectUtil` turns a value into a
tagged JSON object (`marked` for a registered object, `array`, `collection`
or `primitive`) and reads such JSON back. Reading an unknown handle creates a
placeholder object and registers it. The packet records `MethodCall`,
`FieldFetchCall`, `MethodReturnCall` and `NewObjectCall` write themselves as a
UTF string, some behind a 16-bit opcode, and `PacketFactory` dispatches on
that opcode.

**The code generator** (`code-generator`): for every public or
package-visible class of the Bukkit, Paper, Spigot, Aikar and Adventure
packages it writes a mirror type into `org.mockbukkit.integrationtester`,
plus a `…MirrorImpl` class for each interface. It covers:

- the naming scheme (`modifySimpleClassName`, `getModifiedPackage`, `determineClassNames`);
- which methods are mirrored (`isMethodBanned`, `ignoreMethod`);
- how each mirrored method delegates to `MirrorHandler`;
- the type rendering in `Util`;
- the `MethodData` and `ParameterData` records, their identity and hashes.

Modules follow the source. The shared modules are:

- `Wrappers`: Option and Result.
- `Strings`: string search and splitting.
- `CoreValues`: Java values, JSON, 16/32/64-bit wrap-around, the item stream.
- `Reflection`: classes, methods and annotations as values.
- `Poet`: the JavaPoet names and specs the generator builds.

The source's own files map to modules as follows:

- `Registry`: `ObjectRegistry`.
- `ObjectUtil`: `ObjectUtil`.
- `MethodCall`, `FieldFetchCall`, `MethodReturnCall`, `NewObjectCall`, `PacketFactory`: the packet classes of the same names.
- `Naming`, `Selection`, `Generator`: the three concerns of `CodeGenerator`.
- `TypeUtil`: `Util`.
- `Methods`: `MethodData`.
- `Parameters`: `ParameterData`.

The model keeps the source's own form:

- The registry and the generator are classes whose methods update their fields.
- The loops of the source (serialization into a `JsonArray`, `readArray`, `ignoreMethod`, `generateMethods`, `getAnnotationSpec`, `getRedefinitions`, `compileTypeVariableConversions`, `main`) are methods with loop invariants.
- Each method is proved equal to a specification function, and the lemmas about that function state what the source promises.

The main properties proved:

- Sending a value and reading it back on the same registry rebuilds it and registers nothing.
- Decoding never breaks the registry's two-way consistency.
- The mirror naming is injective and can be undone.
- Exactly the unbanned, unsuppressed methods are mirrored.
- Every generated file is named and placed as the naming scheme says.
- Equal `MethodData` and `ParameterData` records hash alike.

## Model

| member | source | states |
|---|---|---|
| Registry.BiMap.KeyOf | core/src/main/java/org/mockbukkit/integrationtester/core/io/ObjectRegistry.java:31-33 | a handle is found exactly for an object the table holds, and it is the handle bound to that object |
| Registry.BiMap.Get | core/src/main/java/org/mockbukkit/integrationtester/core/io/ObjectRegistry.java:19-25 | succeeds exactly for a handle bound to a non-null object and yields it; otherwise the not-found error for that handle |
| Registry.BiMap.Put | core/src/main/java/org/mockbukkit/integrationtester/core/io/ObjectRegistry.java:35-37 | refused (HashBiMap's value-already-present error) exactly when the object has another handle; otherwise the forward map gains the binding and the inverse view stays consistent |
| Registry.Injective | core/src/main/java/org/mockbukkit/integrationtester/core/io/ObjectRegistry.java:12 | two handles of a bidirectional table never share an object |
| Registry.DeterminedByForward | core/src/main/java/org/mockbukkit/integrationtester/core/io/ObjectRegistry.java:12 | the inverse view is fixed by the forward map |
| Registry.PutThenLookup | core/src/main/java/org/mockbukkit/integrationtester/core/io/ObjectRegistry.java:31-37 | after a successful put the handle resolves to the object and the object to the handle |
| Registry.PutFrame | core/src/main/java/org/mockbukkit/integrationtester/core/io/ObjectRegistry.java:35-37 | a put changes the binding of its own handle only |
| Registry.ObjectRegistry.constructor | core/src/main/java/org/mockbukkit/integrationtester/core/io/ObjectRegistry.java:15-17 | the table starts empty; the class remapping is null and the constructor's argument is never read (line 16 reads the blank final field before assigning it, which does not compile, and the model takes the field as null) |
| Registry.ObjectRegistry.GetObject | core/src/main/java/org/mockbukkit/integrationtester/core/io/ObjectRegistry.java:19-25 | the object bound to the key; an unbound key or one bound to null is the not-found error; agrees with BiMap.Get |
| Registry.ObjectRegistry.HasKey | core/src/main/java/org/mockbukkit/integrationtester/core/io/ObjectRegistry.java:27-29 | true exactly when the key is bound |
| Registry.ObjectRegistry.GetKey | core/src/main/java/org/mockbukkit/integrationtester/core/io/ObjectRegistry.java:31-33 | present exactly for a registered object, and then the key bound to it |
| Registry.ObjectRegistry.PutObject | core/src/main/java/org/mockbukkit/integrationtester/core/io/ObjectRegistry.java:35-37 | binds the key to the object, or fails with nothing changed when the object already has another key |
| Registry.ObjectRegistry.Clear | core/src/main/java/org/mockbukkit/integrationtester/core/io/ObjectRegistry.java:39-41 | afterwards no key is bound in either direction |
| Registry.ObjectRegistry.HasObject | core/src/main/java/org/mockbukkit/integrationtester/core/io/ObjectRegistry.java:43-45 | true exactly when getKey is present |
| ObjectUtil.CreatePrimitive | core/src/main/java/org/mockbukkit/integrationtester/core/util/ObjectUtil.java:136-165 | every boxed primitive or string becomes a JSON primitive |
| ObjectUtil.ReadPrimitive | core/src/main/java/org/mockbukkit/integrationtester/core/util/ObjectUtil.java:62-75 | a class name outside the nine wrapper classes is rejected; a missing value is a null dereference; a result is a boxed value of exactly the named class |
| ObjectUtil.ReadPrimitiveRoundTrip | core/src/main/java/org/mockbukkit/integrationtester/core/util/ObjectUtil.java:62-75 | reading a literal written by createPrimitive under its own class name gives the value back |
| ObjectUtil.ReadPrimitiveMember | core/src/main/java/org/mockbukkit/integrationtester/core/util/ObjectUtil.java:44-45 | a value member that is not a JSON primitive fails the cast; a result carries the class_type it was read as |
| ObjectUtil.Distinct | core/src/main/java/org/mockbukkit/integrationtester/core/util/ObjectUtil.java:85-89 | the elements a HashSet keeps: the same members, each once |
| ObjectUtil.DistinctOfNoDuplicates | core/src/main/java/org/mockbukkit/integrationtester/core/util/ObjectUtil.java:85-89 | a duplicate-free element list is kept as it is |
| ObjectUtil.ToCollection | core/src/main/java/org/mockbukkit/integrationtester/core/util/ObjectUtil.java:77-93 | an unloadable class is an error; a List class gives an ArrayList of the objects in order; a Set class a HashSet of the same members without duplicates; any other class is an error |
| ObjectUtil.SerializeData | core/src/main/java/org/mockbukkit/integrationtester/core/util/ObjectUtil.java:96-134 | a result is a tagged JSON object, tagged marked exactly when the object has a handle |
| ObjectUtil.SerializeAll | core/src/main/java/org/mockbukkit/integrationtester/core/util/ObjectUtil.java:105-125 | one encoding per element |
| ObjectUtil.SerializeAllStopsAtError | core/src/main/java/org/mockbukkit/integrationtester/core/util/ObjectUtil.java:105-125 | once an element fails, the element loop fails with that error |
| ObjectUtil.SerializeObject | core/src/main/java/org/mockbukkit/integrationtester/core/util/ObjectUtil.java:96-134 | the imperative serializeData computes exactly SerializeData |
| ObjectUtil.SerializeElements | core/src/main/java/org/mockbukkit/integrationtester/core/util/ObjectUtil.java:105-125 | the element loop computes exactly SerializeAll |
| ObjectUtil.SerializeOkIff | core/src/main/java/org/mockbukkit/integrationtester/core/util/ObjectUtil.java:96-134 | serializeData succeeds exactly on registered non-null objects and on unregistered arrays and collections of such values, boxed primitives and strings |
| ObjectUtil.SerializeAllOkIff | core/src/main/java/org/mockbukkit/integrationtester/core/util/ObjectUtil.java:105-125 | the element loop succeeds exactly when every element is serializable |
| ObjectUtil.Read | core/src/main/java/org/mockbukkit/integrationtester/core/util/ObjectUtil.java:29-49 | readObject keeps the registry a valid two-way table and never yields null |
| ObjectUtil.ReadAll | core/src/main/java/org/mockbukkit/integrationtester/core/util/ObjectUtil.java:21-27 | readArray keeps the registry a valid two-way table |
| ObjectUtil.ReadAllStopsAtError | core/src/main/java/org/mockbukkit/integrationtester/core/util/ObjectUtil.java:21-27 | once an element fails, the rest are not read |
| ObjectUtil.ReadKeepsConsistent | core/src/main/java/org/mockbukkit/integrationtester/core/util/ObjectUtil.java:32-40 | decoding never unbinds or rebinds a handle and never hits the value-already-present error |
| ObjectUtil.ReadAllKeepsConsistent | core/src/main/java/org/mockbukkit/integrationtester/core/util/ObjectUtil.java:21-27 | the same for a whole element list |
| ObjectUtil.ReadMarkedRegistered | core/src/main/java/org/mockbukkit/integrationtester/core/util/ObjectUtil.java:32-36 | a registered handle decodes to its object and changes nothing |
| ObjectUtil.ReadMarkedUnknown | core/src/main/java/org/mockbukkit/integrationtester/core/util/ObjectUtil.java:37-40 | an unknown handle decodes to a new placeholder of the named class, bound under exactly that handle |
| ObjectUtil.ReadMarkedTwice | core/src/main/java/org/mockbukkit/integrationtester/core/util/ObjectUtil.java:32-40 | decoding a handle a second time, under any class name, gives the same object and changes nothing more |
| ObjectUtil.ReadUnknownTag | core/src/main/java/org/mockbukkit/integrationtester/core/util/ObjectUtil.java:46-47 | an unknown type tag is rejected before anything is read or registered |
| ObjectUtil.CanonAll | core/src/main/java/org/mockbukkit/integrationtester/core/util/ObjectUtil.java:41-43 | the rebuilt element list has one entry per element |
| ObjectUtil.RoundTrip | core/src/main/java/org/mockbukkit/integrationtester/core/util/ObjectUtil.java:29-134 | readObject of serializeData on the same registry rebuilds the value (arrays as Object[], lists as ArrayList, sets as HashSet) and registers nothing |
| ObjectUtil.ReadArrayJson | core/src/main/java/org/mockbukkit/integrationtester/core/util/ObjectUtil.java:41 | an array tag decodes to an Object[] of the decoded elements |
| ObjectUtil.ReadCollectionJson | core/src/main/java/org/mockbukkit/integrationtester/core/util/ObjectUtil.java:42-43 | a collection tag decodes to toCollection of the decoded elements |
| ObjectUtil.ReadPrimitiveJson | core/src/main/java/org/mockbukkit/integrationtester/core/util/ObjectUtil.java:44-45 | a primitive tag decodes through readPrimitive |
| ObjectUtil.RoundTripAll | core/src/main/java/org/mockbukkit/integrationtester/core/util/ObjectUtil.java:21-27 | the element lists round-trip in order |
| ObjectUtil.CanonOfCanonical | core/src/main/java/org/mockbukkit/integrationtester/core/util/ObjectUtil.java:29-49 | a value already in decoded shape is rebuilt as itself |
| ObjectUtil.CanonAllOfCanonical | core/src/main/java/org/mockbukkit/integrationtester/core/util/ObjectUtil.java:21-27 | the same for element lists |
| ObjectUtil.RoundTripExact | core/src/main/java/org/mockbukkit/integrationtester/core/util/ObjectUtil.java:29-134 | for values already in decoded shape the round trip is the identity |
| ObjectUtil.Heap.New | core/src/main/java/org/mockbukkit/integrationtester/core/util/ObjectUtil.java:51-60 | createNew yields a placeholder of the named class never handed out before |
| ObjectUtil.ReadObject | core/src/main/java/org/mockbukkit/integrationtester/core/util/ObjectUtil.java:29-49 | the imperative readObject returns and leaves the registry exactly as Read says |
| ObjectUtil.ReadArray | core/src/main/java/org/mockbukkit/integrationtester/core/util/ObjectUtil.java:21-27 | the imperative readArray returns and leaves the registry exactly as ReadAll says |
| MethodCall.JsonArray.constructor | core/src/main/java/org/mockbukkit/integrationtester/core/io/MethodCall.java:101 | a new JsonArray is empty |
| MethodCall.Encode | core/src/main/java/org/mockbukkit/integrationtester/core/io/MethodCall.java:91-132 | a result is a tagged JSON object, tagged marked exactly when the value has a handle |
| MethodCall.EncodeAll | core/src/main/java/org/mockbukkit/integrationtester/core/io/MethodCall.java:99-117 | one element per value |
| MethodCall.EncodeAllElements | core/src/main/java/org/mockbukkit/integrationtester/core/io/MethodCall.java:99-117 | the i-th element is the encoding of the i-th value |
| MethodCall.EncodeAllStopsAtError | core/src/main/java/org/mockbukkit/integrationtester/core/io/MethodCall.java:99-117 | once a value fails, the loop fails with that error |
| MethodCall.EncodeOkIff | core/src/main/java/org/mockbukkit/integrationtester/core/io/MethodCall.java:91-132 | insertData succeeds exactly on registered values (null included) and on unregistered arrays and collections of such values, boxed primitives and strings |
| MethodCall.EncodeAllOkIff | core/src/main/java/org/mockbukkit/integrationtester/core/io/MethodCall.java:99-117 | the loop succeeds exactly when every value is insertable |
| MethodCall.MarkedEncodingsDiffer | core/src/main/java/org/mockbukkit/integrationtester/core/io/MethodCall.java:92-98 | this encoder sends a registered value without its class name and accepts a registered null, where serializeData throws; otherwise the two differ only by class_type |
| MethodCall.InsertData | core/src/main/java/org/mockbukkit/integrationtester/core/io/MethodCall.java:91-132 | appends exactly the encoding of the value, or fails leaving the array as it was |
| MethodCall.InsertElements | core/src/main/java/org/mockbukkit/integrationtester/core/io/MethodCall.java:99-117 | the nested loop into a fresh array computes exactly EncodeAll |
| MethodCall.ToJson | core/src/main/java/org/mockbukkit/integrationtester/core/io/MethodCall.java:11-26 | fails exactly when the target has no handle or a parameter cannot be encoded; otherwise an object with exactly method, owner, objectId and parameters, the handle of the target and the i-th parameter encoded at place i |
| MethodCall.Send | core/src/main/java/org/mockbukkit/integrationtester/core/io/MethodCall.java:11-26 | writes one UTF string holding ToJson and no opcode, or fails with ToJson's error |
| MethodCall.DecodeAll | core/src/main/java/org/mockbukkit/integrationtester/core/io/MethodCall.java:40-55 | one object per element |
| MethodCall.DecodeAllStopsAtError | core/src/main/java/org/mockbukkit/integrationtester/core/io/MethodCall.java:40-55 | once an element fails, the rest are not read |
| MethodCall.Decode | core/src/main/java/org/mockbukkit/integrationtester/core/io/MethodCall.java:28-38 | a received call targets a non-null registered object |
| MethodCall.ReadElement | core/src/main/java/org/mockbukkit/integrationtester/core/io/MethodCall.java:43-52 | the loop body computes exactly DecodeElement |
| MethodCall.ReadArray | core/src/main/java/org/mockbukkit/integrationtester/core/io/MethodCall.java:40-55 | readArray computes exactly DecodeAll and never changes the registry |
| MethodCall.Receive | core/src/main/java/org/mockbukkit/integrationtester/core/io/MethodCall.java:28-38 | receive computes exactly Decode |
| MethodCall.RoundTripElement | core/src/main/java/org/mockbukkit/integrationtester/core/io/MethodCall.java:40-132 | decoding the encoding of a serializable value rebuilds it as ObjectUtil does |
| MethodCall.RoundTripElements | core/src/main/java/org/mockbukkit/integrationtester/core/io/MethodCall.java:40-132 | the same for parameter lists, in order |
| MethodCall.DecodeArrayJson | core/src/main/java/org/mockbukkit/integrationtester/core/io/MethodCall.java:46 | an array tag decodes to an Object[] of the decoded elements |
| MethodCall.DecodeCollectionJson | core/src/main/java/org/mockbukkit/integrationtester/core/io/MethodCall.java:47-48 | a collection tag decodes to toCollection of the decoded elements |
| MethodCall.DecodeMessage | core/src/main/java/org/mockbukkit/integrationtester/core/io/MethodCall.java:28-38 | the object send writes is read back member by member |
| MethodCall.RoundTrip | core/src/main/java/org/mockbukkit/integrationtester/core/io/MethodCall.java:11-38 | receive(send(call)) on one registry gives the name, the owner, the very target and the rebuilt parameters |
| MethodCall.UnknownHandleRejected | core/src/main/java/org/mockbukkit/integrationtester/core/io/MethodCall.java:45 | an unknown handle is an error here, and readObject cannot read this encoder's marked form of it at all |
| MethodCall.SendReceiveDeepEquals | core/src/test/java/org/mockbukkit/integrationtester/core/io/MethodCallTest.java:33-40 | the received call has the same name, owner and target, and deep-equal parameters whenever the rebuilt ones are |
| MethodCall.TestRegistryFacts | core/src/test/java/org/mockbukkit/integrationtester/core/io/MethodCallTest.java:42-48 | the test registry binds handles 0, 1 and 2 to the three test objects |
| MethodCall.TestCallsRoundTrip | core/src/test/java/org/mockbukkit/integrationtester/core/io/MethodCallTest.java:33-58 | each of the test's four calls survives send and receive as the test asserts |
| MethodCall.RegisteredElements | core/src/test/java/org/mockbukkit/integrationtester/core/io/MethodCallTest.java:54 | registered non-null values are sent by handle and come back as themselves |
| MethodCall.TestCall0 | core/src/test/java/org/mockbukkit/integrationtester/core/io/MethodCallTest.java:54 | the parameters of the first test call are encodable and come back deep-equal |
| MethodCall.TestCall1 | core/src/test/java/org/mockbukkit/integrationtester/core/io/MethodCallTest.java:50-55 | the same for the array parameter |
| MethodCall.TestCall2 | core/src/test/java/org/mockbukkit/integrationtester/core/io/MethodCallTest.java:49-56 | the same for the list parameter |
| MethodCall.TestCall3 | core/src/test/java/org/mockbukkit/integrationtester/core/io/MethodCallTest.java:57 | the same for the boolean parameter |
| FieldFetchCall.Payload | core/src/main/java/org/mockbukkit/integrationtester/core/io/FieldFetchCall.java:14-27 | fails exactly when a non-null owner cannot be serialized; field and class always present; owner present exactly for a non-null owner, as its serializeData |
| FieldFetchCall.Send | core/src/main/java/org/mockbukkit/integrationtester/core/io/FieldFetchCall.java:14-27 | the opcode 0 is written first, whatever happens after |
| FieldFetchCall.Decode | core/src/main/java/org/mockbukkit/integrationtester/core/io/FieldFetchCall.java:29-36 | a received call's owner is null exactly when the owner member is absent |
| FieldFetchCall.Receive | core/src/main/java/org/mockbukkit/integrationtester/core/io/FieldFetchCall.java:29-36 | the imperative receive returns and leaves the registry exactly as Decode says |
| FieldFetchCall.SendFailsIff | core/src/main/java/org/mockbukkit/integrationtester/core/io/FieldFetchCall.java:14-27 | send fails, after writing the opcode alone, exactly when a non-null owner is not serializable |
| FieldFetchCall.RoundTrip | core/src/main/java/org/mockbukkit/integrationtester/core/io/FieldFetchCall.java:14-36 | with the opcode consumed, receive gives back the class, the field and the rebuilt owner, and registers nothing |
| FieldFetchCall.OpcodeNotConsumed | core/src/main/java/org/mockbukkit/integrationtester/core/io/FieldFetchCall.java:29-31 | on the stream exactly as written (opcode first) receive fails |
| MethodReturnCall.Send | core/src/main/java/org/mockbukkit/integrationtester/core/io/MethodReturnCall.java:13-21 | the opcode 2 first; then, exactly when serializeData succeeds, its result as one UTF string |
| MethodReturnCall.Decode | core/src/main/java/org/mockbukkit/integrationtester/core/io/MethodReturnCall.java:23-30 | keeps the registry a valid two-way table |
| MethodReturnCall.Receive | core/src/main/java/org/mockbukkit/integrationtester/core/io/MethodReturnCall.java:23-30 | the imperative receive returns and leaves the registry exactly as Decode says |
| MethodReturnCall.SendFailsIff | core/src/main/java/org/mockbukkit/integrationtester/core/io/MethodReturnCall.java:13-21 | send fails, after the opcode, exactly on values serializeData refuses |
| MethodReturnCall.RoundTrip | core/src/main/java/org/mockbukkit/integrationtester/core/io/MethodReturnCall.java:13-30 | with the opcode consumed, the rebuilt value comes back and nothing is registered |
| MethodReturnCall.OpcodeNotConsumed | core/src/main/java/org/mockbukkit/integrationtester/core/io/MethodReturnCall.java:23-25 | on the stream exactly as written receive fails |
| MethodReturnCall.UnknownHandleRegistered | core/src/main/java/org/mockbukkit/integrationtester/core/io/MethodReturnCall.java:23-30 | a returned unknown handle becomes a new placeholder bound under that handle |
| NewObjectCall.Payload | core/src/main/java/org/mockbukkit/integrationtester/core/io/NewObjectCall.java:10-19 | an object with exactly the members id and class |
| NewObjectCall.Send | core/src/main/java/org/mockbukkit/integrationtester/core/io/NewObjectCall.java:10-19 | one UTF string, no opcode, no failure |
| NewObjectCall.Receive | core/src/main/java/org/mockbukkit/integrationtester/core/io/NewObjectCall.java:21-28 | a received call's id is the id member read as a long and its class the class member |
| NewObjectCall.RoundTrip | core/src/test/java/org/mockbukkit/integrationtester/core/io/NewObjectCallTest.java:23-29 | receive(send(call)) is the call |
| NewObjectCall.ReceiveNeedsUtf | core/src/main/java/org/mockbukkit/integrationtester/core/io/NewObjectCall.java:21-28 | a stream that does not start with a UTF string is refused |
| PacketFactory.FromStream | core/src/main/java/org/mockbukkit/integrationtester/core/io/PacketFactory.java:9-21 | a stream without a leading opcode is refused; each packet kind is produced only under its own opcode |
| PacketFactory.UnknownOpcode | core/src/main/java/org/mockbukkit/integrationtester/core/io/PacketFactory.java:17 | any other opcode is refused and nothing is read or registered |
| PacketFactory.FieldFetchDispatch | core/src/main/java/org/mockbukkit/integrationtester/core/io/PacketFactory.java:16 | what FieldFetchCall.send wrote comes back through fromStream |
| PacketFactory.MethodReturnDispatch | core/src/main/java/org/mockbukkit/integrationtester/core/io/PacketFactory.java:14 | what MethodReturnCall.send wrote comes back through fromStream |
| PacketFactory.InvocationDispatch | core/src/main/java/org/mockbukkit/integrationtester/core/io/PacketFactory.java:15 | under the method-call opcode a packet is produced exactly when MethodCall.receive succeeds on the rest, and the session is left unchanged |
| Selection.ParametersMatchMeans | code-generator/src/main/java/org/mockbukkit/integrationtester/codegen/CodeGenerator.java:241-249 | parametersMatches holds exactly when the listed classes are the leading parameter classes |
| Selection.SomeListMatchesMeans | code-generator/src/main/java/org/mockbukkit/integrationtester/codegen/CodeGenerator.java:229-238 | the loop over the listed parameter lists holds exactly when the method's parameter classes are one of them |
| Selection.IsMethodBannedMeans | code-generator/src/main/java/org/mockbukkit/integrationtester/codegen/CodeGenerator.java:206-239 | never for interfaces; otherwise exactly when the name is listed for the kind with exactly the method's parameter classes |
| Selection.ObjectMembersBanned | code-generator/src/main/java/org/mockbukkit/integrationtester/codegen/CodeGenerator.java:211-215 | getClass() and wait(long, int) are banned from every class, enum and record |
| Selection.ValuesBannedOnlyFromEnums | code-generator/src/main/java/org/mockbukkit/integrationtester/codegen/CodeGenerator.java:216-226 | values() is banned from an enum and from nothing else |
| Selection.RecordBans | code-generator/src/main/java/org/mockbukkit/integrationtester/codegen/CodeGenerator.java:226-228 | a record loses equals(Object) but keeps equals(String) and hashCode() |
| Selection.InterfacesKeepEverything | code-generator/src/main/java/org/mockbukkit/integrationtester/codegen/CodeGenerator.java:207-210 | interfaces keep every member |
| Selection.IgnoreMethod | code-generator/src/main/java/org/mockbukkit/integrationtester/codegen/CodeGenerator.java:186-204 | the scan drops a method exactly when another entry has its signature and a return type assignable from its own, since methodPos is lowered before the tie test |
| Selection.MutualSuppression | code-generator/src/main/java/org/mockbukkit/integrationtester/codegen/CodeGenerator.java:186-204 | two entries with the same signature and return type drop each other |
| Selection.WiderReturnTypeKept | code-generator/src/main/java/org/mockbukkit/integrationtester/codegen/CodeGenerator.java:186-204 | of two entries alone sharing a signature, the narrower return type is dropped and the wider kept |
| Selection.UniqueSignatureKept | code-generator/src/main/java/org/mockbukkit/integrationtester/codegen/CodeGenerator.java:186-204 | a method whose signature no other entry shares is never dropped |
| Naming.ModifySimpleClassName | code-generator/src/main/java/org/mockbukkit/integrationtester/codegen/CodeGenerator.java:303-311 | Mirror is inserted before the first [ or appended when there is none |
| Naming.MirrorAt | code-generator/src/main/java/org/mockbukkit/integrationtester/codegen/CodeGenerator.java:303-311 | the insertion point is before the first [ or at the end |
| Naming.MirrorAtUnique | code-generator/src/main/java/org/mockbukkit/integrationtester/codegen/CodeGenerator.java:303-311 | that insertion point is the only one satisfying the regex |
| Naming.ModifiedAtMirror | code-generator/src/main/java/org/mockbukkit/integrationtester/codegen/CodeGenerator.java:303-311 | the mirror name is the simple name with Mirror at MirrorAt |
| Naming.MirrorExamples | code-generator/src/main/java/org/mockbukkit/integrationtester/codegen/CodeGenerator.java:303-311 | Foo[] becomes FooMirror[] and Player becomes PlayerMirror |
| Naming.MirrorKeepsBrackets | code-generator/src/main/java/org/mockbukkit/integrationtester/codegen/CodeGenerator.java:303-311 | a mirror name has a [ exactly when the original has |
| Naming.MirrorUndone | code-generator/src/main/java/org/mockbukkit/integrationtester/codegen/CodeGenerator.java:303-311 | taking Mirror back out gives the original simple name |
| Naming.MirrorNameInjective | code-generator/src/main/java/org/mockbukkit/integrationtester/codegen/CodeGenerator.java:303-311 | distinct simple names get distinct mirror names |
| Naming.ImplementationNameIsNoMirrorName | code-generator/src/main/java/org/mockbukkit/integrationtester/codegen/CodeGenerator.java:88-89 | a bracket-free mirror name followed by Impl is no mirror name |
| Naming.BracketedImplementationCollides | code-generator/src/main/java/org/mockbukkit/integrationtester/codegen/CodeGenerator.java:88-89 | with a trailing [ an implementation name can collide with a mirror name |
| Naming.FirstMatch | code-generator/src/main/java/org/mockbukkit/integrationtester/codegen/CodeGenerator.java:297 | the leftmost position the regex matches at, or none |
| Naming.ReplaceFirstAtStart | code-generator/src/main/java/org/mockbukkit/integrationtester/codegen/CodeGenerator.java:297 | a match at the start is the one replaced |
| Naming.ReplaceFirstNoMatch | code-generator/src/main/java/org/mockbukkit/integrationtester/codegen/CodeGenerator.java:297 | text without a match is left alone |
| Naming.ParentPrefix | code-generator/src/main/java/org/mockbukkit/integrationtester/codegen/CodeGenerator.java:296 | the text before the last dot of an included package |
| Naming.ModifiedPackageIn | code-generator/src/main/java/org/mockbukkit/integrationtester/codegen/CodeGenerator.java:292-301 | null exactly when no listed package is contained; otherwise the first contained one decides and its parent prefix is replaced by the target |
| Naming.GetModifiedPackage | code-generator/src/main/java/org/mockbukkit/integrationtester/codegen/CodeGenerator.java:292-301 | null exactly when the package contains none of the six included packages |
| Naming.ScannedPackageRewritten | code-generator/src/main/java/org/mockbukkit/integrationtester/codegen/CodeGenerator.java:292-301 | a package starting with the first included package it contains gets that package's parent prefix swapped for the target |
| Naming.BukkitEntityPackage | code-generator/src/main/java/org/mockbukkit/integrationtester/codegen/CodeGenerator.java:292-301 | org.bukkit.entity is mirrored in org.mockbukkit.integrationtester.bukkit.entity |
| Naming.UnrelatedPackage | code-generator/src/main/java/org/mockbukkit/integrationtester/codegen/CodeGenerator.java:292-301 | java.util gets no mirror package |
| Naming.NestedSuffix | code-generator/src/main/java/org/mockbukkit/integrationtester/codegen/CodeGenerator.java:67 | the nested suffix extends the enclosing suffix |
| Naming.ClassNamesKeys | code-generator/src/main/java/org/mockbukkit/integrationtester/codegen/CodeGenerator.java:64-74 | exactly the classes of the scanned tree whose package has a mirror package get a name |
| Naming.ClassNamesLookup | code-generator/src/main/java/org/mockbukkit/integrationtester/codegen/CodeGenerator.java:64-74 | a class's entry is its own name, else the entry from its nested classes, else an earlier one |
| Naming.ClassNameShape | code-generator/src/main/java/org/mockbukkit/integrationtester/codegen/CodeGenerator.java:64-74 | an entry is the mirror simple name, top-level, in the mirror package followed by the suffix |
| Naming.ClassNamesShape | code-generator/src/main/java/org/mockbukkit/integrationtester/codegen/CodeGenerator.java:64-74 | the same for every entry |
| Naming.SingleClassNames | code-generator/src/main/java/org/mockbukkit/integrationtester/codegen/CodeGenerator.java:64-74 | one scanned class: its nested classes' names, then its own on top |
| Naming.ClassNamesStep | code-generator/src/main/java/org/mockbukkit/integrationtester/codegen/CodeGenerator.java:64-74 | one more scanned class: the earlier names, then its nested ones, then its own |
| Naming.NestedClassName | code-generator/src/main/java/org/mockbukkit/integrationtester/codegen/CodeGenerator.java:64-74 | a nested class goes into the Internal<Outer>Mirror sub-package of its mirror package |
| Naming.LaterEntryKept | code-generator/src/main/java/org/mockbukkit/integrationtester/codegen/CodeGenerator.java:64-74 | a leaf class no later class repeats keeps its own mirror name |
| TypeUtil.FixTypeName | code-generator/src/main/java/org/mockbukkit/integrationtester/codegen/Util.java:99-110 | an unloadable name is returned as it is; a loadable one loses every $; one without a mirror is the name with $ replaced by . |
| TypeUtil.Kept | code-generator/src/main/java/org/mockbukkit/integrationtester/codegen/Util.java:130-139 | the types rendered: from the input, Object left out when asked |
| TypeUtil.KeptAll | code-generator/src/main/java/org/mockbukkit/integrationtester/codegen/Util.java:130-139 | without ignoreObject nothing is left out |
| TypeUtil.Parameterize | code-generator/src/main/java/org/mockbukkit/integrationtester/codegen/Util.java:16 | ParameterizedTypeName.get succeeds exactly with at least one argument and none primitive |
| TypeUtil.SubtypeOf | code-generator/src/main/java/org/mockbukkit/integrationtester/codegen/Util.java:22 | ? extends b, refused for a primitive bound |
| TypeUtil.SupertypeOf | code-generator/src/main/java/org/mockbukkit/integrationtester/codegen/Util.java:20 | ? super b, refused for a primitive bound |
| TypeUtil.GetTypeNames | code-generator/src/main/java/org/mockbukkit/integrationtester/codegen/Util.java:130-139 | one rendering per kept type |
| TypeUtil.GetTypeNamesElementwise | code-generator/src/main/java/org/mockbukkit/integrationtester/codegen/Util.java:130-139 | getTypeNames succeeds exactly when every kept type renders, and then yields their renderings in order |
| TypeUtil.GetTypeNamesValues | code-generator/src/main/java/org/mockbukkit/integrationtester/codegen/Util.java:130-139 | the i-th result is the rendering of the i-th kept type |
| TypeUtil.GetTypeNamesSucceeds | code-generator/src/main/java/org/mockbukkit/integrationtester/codegen/Util.java:130-139 | if every kept type renders, getTypeNames succeeds |
| TypeUtil.TypeVariableText | code-generator/src/main/java/org/mockbukkit/integrationtester/codegen/Util.java:26-34 | a type variable renders as its redefinition, or its own name without one |
| TypeUtil.RenderClass | code-generator/src/main/java/org/mockbukkit/integrationtester/codegen/Util.java:35-37 | a class renders as an array name exactly when it is an array class, as a keyword only when it is a primitive, and a class without a dot in its name as TypeName.get of it |
| TypeUtil.GetTypeName | code-generator/src/main/java/org/mockbukkit/integrationtester/codegen/Util.java:12-46 | the rendering keeps the kind of the type: parameterized to parameterized, wildcard to wildcard, a type variable to a class or variable name, a generic array or array class to an array name, and only a primitive class to a keyword |
| TypeUtil.DottedClassText | code-generator/src/main/java/org/mockbukkit/integrationtester/codegen/Util.java:41-42 | a dotted class name renders as its fixed name |
| TypeUtil.UndottedClassText | code-generator/src/main/java/org/mockbukkit/integrationtester/codegen/Util.java:41-45 | a class whose name has no dot (a primitive, void, a class in the unnamed package) renders as TypeName.get of it, primitives keeping their keyword (line 44's ClassName.get(type) resolves to the inherited static TypeName.get(Type)) |
| TypeUtil.GenericArrayText | code-generator/src/main/java/org/mockbukkit/integrationtester/codegen/Util.java:38-40 | a generic array type renders as its rendered component followed by [] |
| TypeUtil.ParameterizedKeepsArguments | code-generator/src/main/java/org/mockbukkit/integrationtester/codegen/Util.java:13-17 | a parameterized type keeps every argument, Object included, and its raw type's fixed name |
| TypeUtil.SuperObjectFails | code-generator/src/main/java/org/mockbukkit/integrationtester/codegen/Util.java:19-20 | ? super Object has its only lower bound filtered out, so indexing the empty result throws |
| TypeUtil.WildcardText | code-generator/src/main/java/org/mockbukkit/integrationtester/codegen/Util.java:18-25 | wildcards render as ?, ? extends U or ? super L with the bound rendered |
| TypeUtil.ArrayClassText | code-generator/src/main/java/org/mockbukkit/integrationtester/codegen/Util.java:35-37 | an array class renders as its component followed by [] |
| TypeUtil.WithoutFirst | code-generator/src/main/java/org/mockbukkit/integrationtester/codegen/Util.java:96 | removes one occurrence when there is one, nothing otherwise |
| TypeUtil.GetTypeVariableName | code-generator/src/main/java/org/mockbukkit/integrationtester/codegen/Util.java:93-97 | a variable of the same name with no more bounds than declared |
| TypeUtil.GetTypeVariableNameOkIff | code-generator/src/main/java/org/mockbukkit/integrationtester/codegen/Util.java:93-97 | succeeds exactly when every non-Object bound renders and none is a primitive; once all render, a primitive bound fails with InvalidBound |
| TypeUtil.GetTypeVariableNameBounds | code-generator/src/main/java/org/mockbukkit/integrationtester/codegen/Util.java:93-97 | each resulting bound is the rendering of a declared non-Object bound |
| TypeUtil.GetTypeVariableNameObjectBound | code-generator/src/main/java/org/mockbukkit/integrationtester/codegen/Util.java:93-97 | the bounds are the renderings in order, less one when a bound renders to java.lang.Object |
| TypeUtil.ObjectBoundDropped | code-generator/src/main/java/org/mockbukkit/integrationtester/codegen/Util.java:93-97 | T extends Object gives a variable without bounds |
| TypeUtil.AnnotationTypeNames | code-generator/src/main/java/org/mockbukkit/integrationtester/codegen/Util.java:141-153 | no more names than annotations |
| TypeUtil.AnnotationTypeNamesFrom | code-generator/src/main/java/org/mockbukkit/integrationtester/codegen/Util.java:141-153 | exactly the public annotations outside jdk.internal give names: every name is the fixed name of one, every one has its fixed name in the result; all copied give one each, none copied gives none |
| TypeUtil.Renderings | code-generator/src/main/java/org/mockbukkit/integrationtester/codegen/Util.java:84-86 | one rendering per argument |
| TypeUtil.RenderingAt | code-generator/src/main/java/org/mockbukkit/integrationtester/codegen/Util.java:84-86 | the i-th rendering is that of the i-th argument |
| TypeUtil.BoundStopsAtError | code-generator/src/main/java/org/mockbukkit/integrationtester/codegen/Util.java:84-86 | once an argument fails to render, the loop fails with that error |
| TypeUtil.RedefinitionKeys | code-generator/src/main/java/org/mockbukkit/integrationtester/codegen/Util.java:82-91 | the redefined variables are exactly the first n super type variables, n the argument count |
| TypeUtil.RedefinitionValue | code-generator/src/main/java/org/mockbukkit/integrationtester/codegen/Util.java:82-91 | a variable maps to the child's redefinition when there is one, else to the rendering of its argument |
| TypeUtil.GetRedefinitions | code-generator/src/main/java/org/mockbukkit/integrationtester/codegen/Util.java:82-91 | the imperative getRedefinitions computes exactly Redefinitions |
| TypeUtil.BindArguments | code-generator/src/main/java/org/mockbukkit/integrationtester/codegen/Util.java:84-86 | the first loop computes exactly Bound |
| TypeUtil.BindArgument | code-generator/src/main/java/org/mockbukkit/integrationtester/codegen/Util.java:85 | one round binds the i-th variable to the i-th rendering |
| TypeUtil.ApplyOverrides | code-generator/src/main/java/org/mockbukkit/integrationtester/codegen/Util.java:87-89 | the second loop gives every bound variable the child's redefinition when it has one |
| TypeUtil.InterfaceConversionsStep | code-generator/src/main/java/org/mockbukkit/integrationtester/codegen/Util.java:65-78 | one more interface adds its contribution over the earlier ones, or fails |
| TypeUtil.InterfaceConversionsStopAtError | code-generator/src/main/java/org/mockbukkit/integrationtester/codegen/Util.java:65-78 | once an interface fails, the loop fails with that error |
| TypeUtil.CompileTypeVariableConversions | code-generator/src/main/java/org/mockbukkit/integrationtester/codegen/Util.java:48-80 | the imperative walk computes exactly Conversions |
| TypeUtil.AddInterfaces | code-generator/src/main/java/org/mockbukkit/integrationtester/codegen/Util.java:63-79 | the interface loop computes exactly InterfaceConversions |
| TypeUtil.ContributionOf | code-generator/src/main/java/org/mockbukkit/integrationtester/codegen/Util.java:56-61 | one supertype's share computes exactly Contribution |
| TypeUtil.ConversionKeys | code-generator/src/main/java/org/mockbukkit/integrationtester/codegen/Util.java:48-80 | the walk records exactly the ancestors it follows |
| TypeUtil.ContributionKeys | code-generator/src/main/java/org/mockbukkit/integrationtester/codegen/Util.java:56-61 | a supertype's share records it and its followed ancestors |
| TypeUtil.InterfaceConversionKeys | code-generator/src/main/java/org/mockbukkit/integrationtester/codegen/Util.java:65-78 | the interface loop adds exactly the interfaces and their followed ancestors |
| TypeUtil.DirectInterfacesRecorded | code-generator/src/main/java/org/mockbukkit/integrationtester/codegen/Util.java:65-78 | every direct interface is recorded, raw ones included |
| TypeUtil.InterfaceInAncestors | code-generator/src/main/java/org/mockbukkit/integrationtester/codegen/Util.java:65-78 | each interface listed is among the recorded ancestors |
| TypeUtil.RawSuperclassSkipped | code-generator/src/main/java/org/mockbukkit/integrationtester/codegen/Util.java:53-54 | a raw superclass that no interface leads to is not recorded |
| TypeUtil.LastInterfaceWins | code-generator/src/main/java/org/mockbukkit/integrationtester/codegen/Util.java:76-77 | the last interface maps to its own redefinitions |
| TypeUtil.ContributionOwn | code-generator/src/main/java/org/mockbukkit/integrationtester/codegen/Util.java:60 | a supertype's share maps the supertype to its own redefinitions |
| Parameters.RawTypeString | code-generator/src/main/java/org/mockbukkit/integrationtester/codegen/ParameterData.java:61-66 | a prefix of the type's text: all of it, or for a parameterized type the part before < |
| Parameters.TypeArgumentsIgnored | code-generator/src/main/java/org/mockbukkit/integrationtester/codegen/ParameterData.java:53-59 | List, List<String> and List<Integer> parameters are equal, whatever their names and annotations |
| Parameters.DifferentRawTypes | code-generator/src/main/java/org/mockbukkit/integrationtester/codegen/ParameterData.java:53-59 | parameters with different raw canonical names are not equal |
| Parameters.StringHash | code-generator/src/main/java/org/mockbukkit/integrationtester/codegen/ParameterData.java:48-51 | String.hashCode is the character polynomial in base 31, wrapped to 32 bits, over code points (see Left out) |
| Parameters.TwoCharacterHash | code-generator/src/main/java/org/mockbukkit/integrationtester/codegen/ParameterData.java:48-51 | "ab" hashes to 3105 |
| Parameters.HashCode | code-generator/src/main/java/org/mockbukkit/integrationtester/codegen/ParameterData.java:48-51 | the wrapped polynomial of the raw type string |
| Parameters.HashConsistent | code-generator/src/main/java/org/mockbukkit/integrationtester/codegen/ParameterData.java:48-59 | equal parameters hash alike |
| Parameters.ParameterFrom | code-generator/src/main/java/org/mockbukkit/integrationtester/codegen/ParameterData.java:33-35 | succeeds exactly when the generic type renders, and keeps the parameter's name |
| Parameters.ParametersFrom | code-generator/src/main/java/org/mockbukkit/integrationtester/codegen/ParameterData.java:28-38 | succeeds exactly when every type renders; one entry per parameter in order with its name, rendered type and annotation names |
| Parameters.GuessAll | code-generator/src/main/java/org/mockbukkit/integrationtester/codegen/ParameterData.java:42-44 | every name guessed in order; the failure names a text that is no class name |
| Parameters.GuessAllCanonical | code-generator/src/main/java/org/mockbukkit/integrationtester/codegen/ParameterData.java:42-44 | each guessed annotation spells out its name |
| Parameters.ToParameterSpec | code-generator/src/main/java/org/mockbukkit/integrationtester/codegen/ParameterData.java:40-46 | the stored type and name, and one annotation per stored name with that canonical name |
| Methods.NoClassParameterMeans | code-generator/src/main/java/org/mockbukkit/integrationtester/codegen/MethodData.java:102-106 | the scan finds a class-named parameter exactly when there is one |
| Methods.PrecedesMeans | code-generator/src/main/java/org/mockbukkit/integrationtester/codegen/MethodData.java:98-108 | precedes holds exactly when the argument returns a plain class name or has no class-named parameter; the receiver plays no part |
| Methods.ParametersEqualMeans | code-generator/src/main/java/org/mockbukkit/integrationtester/codegen/MethodData.java:95 | Arrays.equals: same length and pairwise equal |
| Methods.EqualsIgnoresTheRest | code-generator/src/main/java/org/mockbukkit/integrationtester/codegen/MethodData.java:90-96 | records with the same name and raw parameter types are equal |
| Methods.DifferentNames | code-generator/src/main/java/org/mockbukkit/integrationtester/codegen/MethodData.java:90-96 | different names are never equal |
| Methods.ParameterHashes | code-generator/src/main/java/org/mockbukkit/integrationtester/codegen/MethodData.java:87 | the i-th hash is that of the i-th parameter |
| Methods.HashCode | code-generator/src/main/java/org/mockbukkit/integrationtester/codegen/MethodData.java:85-88 | Guava's varargs Objects.hashCode, that is Arrays.hashCode, of the pair of the parameters' array hash and the name hash |
| Methods.PairHash | code-generator/src/main/java/org/mockbukkit/integrationtester/codegen/MethodData.java:87 | hashing a pair is 31 * (31 + a) + b, wrapped to 32 bits |
| Methods.HashConsistent | code-generator/src/main/java/org/mockbukkit/integrationtester/codegen/MethodData.java:85-96 | equal records hash alike |
| Methods.TypeVariableNames | code-generator/src/main/java/org/mockbukkit/integrationtester/codegen/MethodData.java:34-37 | succeeds exactly when every type parameter renders, and yields them in order |
| Methods.From | code-generator/src/main/java/org/mockbukkit/integrationtester/codegen/MethodData.java:33-48 | succeeds exactly when generics, parameters and return type render; keeps the name, one parameter per parameter with its name, one generic per type parameter, the rendered return type, the annotation names and the flags |
| Methods.SameSignatureEqual | code-generator/src/main/java/org/mockbukkit/integrationtester/codegen/MethodData.java:33-96 | methods with the same name and generic parameter types give equal records |
| Methods.ParameterNames | code-generator/src/main/java/org/mockbukkit/integrationtester/codegen/MethodData.java:79-81 | the i-th name is the i-th parameter's |
| Methods.GenerateParameterString | code-generator/src/main/java/org/mockbukkit/integrationtester/codegen/MethodData.java:77-83 | empty exactly without parameters, otherwise starting with a comma and space |
| Methods.ArgumentListShape | code-generator/src/main/java/org/mockbukkit/integrationtester/codegen/MethodData.java:77-83 | the argument text is empty exactly for no names and otherwise starts with a comma and space |
| Methods.ParameterSpecs | code-generator/src/main/java/org/mockbukkit/integrationtester/codegen/MethodData.java:53 | succeeds exactly when every parameter converts; one spec per parameter in order |
| Methods.ToMethodSpec | code-generator/src/main/java/org/mockbukkit/integrationtester/codegen/MethodData.java:50-75 | public always; static exactly for static methods; abstract, without body, exactly for non-static abstract non-default ones; default exactly for default ones; the delegation passes <className>.class or this and returns unless void |
| Generator.SanitizeClass | code-generator/src/main/java/org/mockbukkit/integrationtester/codegen/CodeGenerator.java:285-290 | a class with a mirror is named by it, any other by TypeName.get |
| Generator.SanitizedMirror | code-generator/src/main/java/org/mockbukkit/integrationtester/codegen/CodeGenerator.java:285-290 | a mirrored class is named by its mirror simple name inside its mirror package |
| Generator.AnnotationClassName | code-generator/src/main/java/org/mockbukkit/integrationtester/codegen/CodeGenerator.java:268 | the annotation's class name is what TypeName.get names |
| Generator.AnnotationNames | code-generator/src/main/java/org/mockbukkit/integrationtester/codegen/CodeGenerator.java:259-271 | no more names than annotations |
| Generator.AnnotationNamesFrom | code-generator/src/main/java/org/mockbukkit/integrationtester/codegen/CodeGenerator.java:259-271 | exactly the public annotations outside jdk.internal give names: each name is that of one, each one has its class name in the result; all copied give one each, none copied none |
| Generator.GetAnnotationSpec | code-generator/src/main/java/org/mockbukkit/integrationtester/codegen/CodeGenerator.java:259-271 | the loop computes exactly AnnotationNames |
| Generator.ParameterSpecsOf | code-generator/src/main/java/org/mockbukkit/integrationtester/codegen/CodeGenerator.java:273-283 | one spec per parameter, in order |
| Generator.GenerateParameterString | code-generator/src/main/java/org/mockbukkit/integrationtester/codegen/CodeGenerator.java:251-257 | a comma and space before each parameter name; empty exactly without parameters |
| Generator.MirrorMethodShape | code-generator/src/main/java/org/mockbukkit/integrationtester/codegen/CodeGenerator.java:159-181 | a mirrored method is public, static exactly when the method is, abstract without body exactly for instance methods of an abstract mirror, and otherwise delegates to MirrorHandler with <className>.class or this, returning unless void |
| Generator.Skipped | code-generator/src/main/java/org/mockbukkit/integrationtester/codegen/CodeGenerator.java:160-162 | a method is skipped exactly when it is banned or another stands for it |
| Generator.MirrorMethods | code-generator/src/main/java/org/mockbukkit/integrationtester/codegen/CodeGenerator.java:156-184 | no more specs than methods |
| Generator.MirrorMethodsStep | code-generator/src/main/java/org/mockbukkit/integrationtester/codegen/CodeGenerator.java:159-181 | one more method adds its spec exactly when it is selected |
| Generator.SelectedMirrored | code-generator/src/main/java/org/mockbukkit/integrationtester/codegen/CodeGenerator.java:156-184 | every selected method has its spec among the output |
| Generator.MirroredSelected | code-generator/src/main/java/org/mockbukkit/integrationtester/codegen/CodeGenerator.java:156-184 | every spec is that of a selected method |
| Generator.UniqueMethodMirrored | code-generator/src/main/java/org/mockbukkit/integrationtester/codegen/CodeGenerator.java:156-184 | an unbanned method whose signature no other shares is mirrored |
| Generator.BannedNotMirrored | code-generator/src/main/java/org/mockbukkit/integrationtester/codegen/CodeGenerator.java:160-162 | every spec comes from a method that is not banned |
| Generator.InterfaceMethodsAbstract | code-generator/src/main/java/org/mockbukkit/integrationtester/codegen/CodeGenerator.java:172-173 | every instance method of an interface mirror is public abstract without body |
| Generator.AgreesWithMethodData | code-generator/src/main/java/org/mockbukkit/integrationtester/codegen/CodeGenerator.java:156-184 | for non-default methods, generateMethods and MethodData.toMethodSpec agree on name, modifiers, body and handler arguments |
| Generator.StartsWithIncluded | code-generator/src/main/java/org/mockbukkit/integrationtester/codegen/CodeGenerator.java:136-141 | true exactly when one of the included packages starts the package name |
| Generator.SuperclassOf | code-generator/src/main/java/org/mockbukkit/integrationtester/codegen/CodeGenerator.java:135-142 | a plain class without superclass fails; only a plain class whose superclass is not Object and lies in an included package gets it, sanitized |
| Generator.Superinterfaces | code-generator/src/main/java/org/mockbukkit/integrationtester/codegen/CodeGenerator.java:133-134 | the interfaces, sanitized, in order |
| Generator.InterfaceFile | code-generator/src/main/java/org/mockbukkit/integrationtester/codegen/CodeGenerator.java:107-154 | a class without a mirror name fails, and an enum fails because its mirror is built with no enum constants; otherwise the file sits in the mirror's package, named by the mirror, of the class's kind, public |
| Generator.ImplementationFile | code-generator/src/main/java/org/mockbukkit/integrationtester/codegen/CodeGenerator.java:87-105 | the mirror's name plus Impl, in its package, implementing the mirror, no modifiers, no superclass |
| Generator.MirrorFilesNamed | code-generator/src/main/java/org/mockbukkit/integrationtester/codegen/CodeGenerator.java:87-154 | a mirror is named after its class inside its mirror package; an implementation takes no mirror's name when the simple name has no [ |
| Generator.Output | code-generator/src/main/java/org/mockbukkit/integrationtester/codegen/CodeGenerator.java:76-85 | a successful fillClass writes at least the class's own mirror |
| Generator.NestedOutputStep | code-generator/src/main/java/org/mockbukkit/integrationtester/codegen/CodeGenerator.java:78-82 | one more nested class adds its files, or its failure, unless invisible or anonymous |
| Generator.EachOutputStep | code-generator/src/main/java/org/mockbukkit/integrationtester/codegen/CodeGenerator.java:41 | one more top-level class adds its files, or its failure |
| Generator.UnnamedClassFails | code-generator/src/main/java/org/mockbukkit/integrationtester/codegen/CodeGenerator.java:111-114 | a class without a mirror name fails its run |
| Generator.EnumClassFails | code-generator/src/main/java/org/mockbukkit/integrationtester/codegen/CodeGenerator.java:122-124 | an enum with a mirror name fails its run, with the no-enum-constant error once its nested classes succeed, since line 143 builds its mirror without constants |
| Generator.OwnFilesLast | code-generator/src/main/java/org/mockbukkit/integrationtester/codegen/CodeGenerator.java:76-85 | an interface's run ends with its mirror then its implementation, any other class's with its mirror |
| Generator.NestedErrorPersists | code-generator/src/main/java/org/mockbukkit/integrationtester/codegen/CodeGenerator.java:78-82 | once a nested class fails, fillClass fails the same way |
| Generator.TopLevel | code-generator/src/main/java/org/mockbukkit/integrationtester/codegen/CodeGenerator.java:56-58 | exactly the visible classes that are not inner classes, from the scan |
| Generator.TopLevelClasses | code-generator/src/main/java/org/mockbukkit/integrationtester/codegen/CodeGenerator.java:57 | filtering adds no class |
| Generator.EachErrorPersists | code-generator/src/main/java/org/mockbukkit/integrationtester/codegen/CodeGenerator.java:41 | once a top-level class fails, the run fails the same way |
| Generator.AllNamesCover | code-generator/src/main/java/org/mockbukkit/integrationtester/codegen/CodeGenerator.java:38-40 | every kept top-level class with a mirror package has a name once all scans are in |
| Generator.CodeGenerator.constructor | code-generator/src/main/java/org/mockbukkit/integrationtester/codegen/CodeGenerator.java:45-48 | no names and no files yet |
| Generator.CodeGenerator.FillClassesInPackage | code-generator/src/main/java/org/mockbukkit/integrationtester/codegen/CodeGenerator.java:50-62 | keeps the visible top-level classes and puts their names over the known ones; writes nothing; keeps the naming invariant |
| Generator.CodeGenerator.GetParameterSpec | code-generator/src/main/java/org/mockbukkit/integrationtester/codegen/CodeGenerator.java:273-283 | the loop computes exactly ParameterSpecsOf |
| Generator.CodeGenerator.MethodSpecFor | code-generator/src/main/java/org/mockbukkit/integrationtester/codegen/CodeGenerator.java:163-181 | the loop body builds exactly MirrorMethod |
| Generator.CodeGenerator.GenerateMethods | code-generator/src/main/java/org/mockbukkit/integrationtester/codegen/CodeGenerator.java:156-184 | the loop computes exactly MirrorMethods over the declared methods of an abstract mirror or all methods otherwise |
| Generator.CodeGenerator.GenerateInterface | code-generator/src/main/java/org/mockbukkit/integrationtester/codegen/CodeGenerator.java:107-154 | writes exactly InterfaceFile and answers whether the class is an interface, or fails writing nothing (a missing name, a missing superclass, an enum) |
| Generator.CodeGenerator.GenerateImplementation | code-generator/src/main/java/org/mockbukkit/integrationtester/codegen/CodeGenerator.java:87-105 | writes exactly ImplementationFile |
| Generator.CodeGenerator.FillClass | code-generator/src/main/java/org/mockbukkit/integrationtester/codegen/CodeGenerator.java:76-85 | appends exactly Output, or fails with its error keeping what was written |
| Generator.CodeGenerator.FillNested | code-generator/src/main/java/org/mockbukkit/integrationtester/codegen/CodeGenerator.java:78-82 | appends exactly NestedOutput, or fails with its error |
| Generator.CodeGenerator.FillNestedAt | code-generator/src/main/java/org/mockbukkit/integrationtester/codegen/CodeGenerator.java:78-82 | one nested class: appends its files unless invisible or anonymous |
| Generator.CodeGenerator.FillScans | code-generator/src/main/java/org/mockbukkit/integrationtester/codegen/CodeGenerator.java:38-40 | the names are AllNames of the scans and the kept classes Outer of them |
| Generator.CodeGenerator.FillEach | code-generator/src/main/java/org/mockbukkit/integrationtester/codegen/CodeGenerator.java:41 | appends exactly EachOutput, or fails with its error |
| Generator.Run | code-generator/src/main/java/org/mockbukkit/integrationtester/codegen/CodeGenerator.java:30-42 | a generator for org.mockbukkit.integrationtester whose names are AllNames and whose files are EachOutput of the kept classes |

## Left out

**Runtime bridge**

- Byte-level framing. A stream is a sequence of items, each a 16-bit opcode or one `writeUTF` string holding JSON text. Modified UTF-8, the 65535-byte limit, JSON text syntax and `IOException` are not modelled, and stream closing is not modelled.
- Gson accessor failures (a missing member, a wrong JSON kind, a failed `getAsLong`) all become one `Malformed` fault naming the member. Gson's lenient coercions between numbers and strings are not modelled.
- Floating point: `Float` and `Double` values are kept as their decimal text, and no rounding is modelled.
- Placeholder objects come from a counter (`Heap`). The `createNew` path through the ByteBuddy/Objenesis instantiation is not modelled, and neither is its reflective failure.
- `HashSet` iteration order is not modelled: a decoded set keeps its members in first-occurrence order.
- Array identity and array component types are not modelled: every decoded array is an `Object[]`, as the source's `toArray()` produces.
- `ObjectRegistry`'s `classRemapping`: `ObjectRegistry.java:16` reads the blank final field before assigning it, which does not compile. The model takes the field as null and never reads the constructor's argument; it appears only as that constant.
- `MethodCall.ID` has no definition in the source, so the method-call opcode is the parameter `methodCallId`. `PacketFactory.FromStream` requires it to differ from the other two opcodes.
- `PacketFactory.FromStream`: `MethodCall` does not implement `Packet`, so its arm of the opcode switch does not type-check as written. The model treats a received `MethodCall` as a packet.
- The `String` components of the packet records can be null in Java: `MethodCall.methodName` and `MethodCall.owner`, `FieldFetchCall.className` and `FieldFetchCall.field`, and `NewObjectCall.ownerClass`. A null one is written as JSON null, and `getAsString()` on receive then throws. The model types these components as non-null strings, so that error path is not modelled.
- `PacketFactory.fromStream` calls `FieldFetchCall.receive` without a registry, but the only `receive` that exists takes one. The model passes the session's registry.
- `Parameters.StringHash` hashes Unicode code points, while Java's `String.hashCode` hashes UTF-16 code units. The two agree for strings made only of characters in the Basic Multilingual Plane, and differ for any character above U+FFFF.
- Object references: object identity (`==`) is a reference number, and `equals` is structural equality of the modelled values. User-defined `equals`/`hashCode` of registered objects are not modelled.

**Code generator**

- ClassGraph scanning, class loading and output folders. The scan results are parameters, and `JavaFile.writeTo` becomes appending to a sequence of files. `main`'s argument check and usage message are left out, and so are directory creation failures.
- JavaPoet validation is modelled for these checks: primitive type arguments, empty type arguments, primitive wildcard bounds, names `bestGuess` rejects, and an enum built without constants. Other `TypeSpec.Builder.build` checks are not modelled, because the generator's methods always meet them: interface methods are public and abstract or static, and plain classes get no abstract methods. The Java source text JavaPoet would print is not modelled.
- `ClassName.bestGuess` and its lower-case test are modelled for ASCII letters only.
- `Class.forName` and `Util.getClass` are an oracle: a map from each loadable class name to the class `getClass` returns for it, which also stands for the `contains`-based nested-class search at `Util.java:122`. When the outer class loads but no nested class matches, `getClass` throws an unchecked `NoSuchElementException` (`Util.java:123`) that the `catch (ClassNotFoundException)` at `Util.java:31` and `Util.java:107` does not catch; the oracle cannot express that outcome, which binary names that reflection returns do not reach.
- Class, method and parameter identity are by value. `ignoreMethod`'s `method == otherMethod` is the index test `i == k`.
- A method's annotations are described by their declared type (`DeclaredRef`). Only the package, the access flag and the name are modelled.
- `replaceFirst` treats its pattern as a regular expression in which `.` matches any character. Line terminators and `$` or `\` in the replacement are not modelled, since package names contain none.
- `Naming.ClassNamesOf`: `determineClassNames` into a `HashMap` is modelled with later entries overriding earlier ones, matching `putAll` order.
- `Generator.CodeGenerator.FillClass` and the files it writes require every scanned class to be in the world. The source loads each class and would fail on one it cannot load.
- `Methods.From`: `MethodData.java:36` calls `getTypeVariableName` with two arguments and `MethodData.java:42` calls `getAnnotationTypeNames` with three, the reverse of their declarations. The model passes the method's type conversions as the missing argument of the first, and drops the extra empty map from the second.
- `Parameters.ParametersFrom`: `ParameterData.java:35` calls `getAnnotationTypeNames` with three arguments. It is read as the two-argument declaration.
- `Generator.TopLevel` states the filter by membership, not order. The order of the kept classes is the scan order, and that is stated by `Generator.CodeGenerator.FillClassesInPackage` only through the function.
- `Naming.MirrorNameInjective` and `Naming.MirrorUndone` hold for simple names. Collisions between classes that share a simple name in different packages are not ruled out, as in the source.
